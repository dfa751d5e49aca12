/**
 * The pure part of the SMTP client of dist/debug/smtp-client.js: the command
 * lines it writes, the reading of the extensions an EHLO reply advertises,
 * the error it builds from reply lines, and the host name it greets with.
 */
module Commands {
  import opened Wrappers
  import opened JsText
  import opened LineFraming
  import opened Reply
  import opened Base64
  import Delivery

  const CRLF: string := "\r\n"

  function HeloCommand(host: string): string { "HELO " + host + CRLF }
  function EhloCommand(host: string): string { "EHLO " + host + CRLF }
  function MailCommand(from: string): string { "MAIL FROM:<" + from + ">" + CRLF }
  function RcptCommand(to: string): string { "RCPT TO:<" + to + ">" + CRLF }
  const NoopCommand: string := "NOOP\r\n"
  const RsetCommand: string := "RSET\r\n"
  const QuitCommand: string := "QUIT\r\n"
  const DataCommand: string := "DATA\r\n"
  const StartTlsCommand: string := "STARTTLS\r\n"
  const AuthLoginCommand: string := "AUTH LOGIN\r\n"
  const CramMd5Command: string := "AUTH CRAM-MD5\r\n"

  /** The message followed by the end-of-data line `.`. */
  function DataBody(source: string): string { source + CRLF + "." + CRLF }

  /** `AUTH PLAIN` with the base64 of NUL, user name, NUL, password (RFC 4616). */
  function AuthPlainCommand(username: string, password: string): string {
    "AUTH PLAIN " + Base64Text("\0" + username + "\0" + password) + CRLF
  }

  /** One AUTH LOGIN answer: the base64 of the user name or the password. */
  function LoginAnswer(secret: string): string { Base64Text(secret) + CRLF }

  /** The AUTH PLAIN argument and each AUTH LOGIN answer decode back to the
      UTF-8 bytes they were made of. */
  lemma CredentialsDecode(username: string, password: string, secret: string)
    ensures var command := AuthPlainCommand(username, password);
      |command| >= 13 && Decode(command[11..|command| - 2]) == Some(Utf8("\0" + username + "\0" + password))
    ensures var answer := LoginAnswer(secret);
      |answer| >= 2 && Decode(answer[..|answer| - 2]) == Some(Utf8(secret))
  {
    var plain := "\0" + username + "\0" + password;
    var command := AuthPlainCommand(username, password);
    assert command[11..|command| - 2] == Base64Text(plain);
    DecodeEncode(Utf8(plain));
    var answer := LoginAnswer(secret);
    assert answer[..|answer| - 2] == Base64Text(secret);
    DecodeEncode(Utf8(secret));
  }

  /** The server prompts AUTH LOGIN expects, as whole reply lines: the 334
      code and the base64 of "Username:" and "Password:" (Base64.UsernamePrompt
      and Base64.PasswordPrompt). */
  const UsernameChallenge: string := "334 VXNlcm5hbWU6"
  const PasswordChallenge: string := "334 UGFzc3dvcmQ6"

  /** A command whose argument holds no line feed is exactly one line for the
      send framer, and leaves nothing buffered. */
  lemma OneCommandLine(line: string)
    requires IsLine(line)
    ensures Completed(line + CRLF) == [line] && Tail(line + CRLF) == []
  {
    FrameRoundTrip([line]);
    assert Frame([line]) == line + CRLF;
  }

  /** A verb with an argument holding no line feed is one line for the send
      framer, and nothing is left buffered. */
  lemma VerbLine(verb: string, argument: string)
    requires verb != [] && '\n' !in verb && '\n' !in argument
    ensures Completed(verb + argument + CRLF) == [verb + argument]
    ensures Tail(verb + argument + CRLF) == []
  {
    OneCommandLine(verb + argument);
  }

  /** HELO and EHLO with a host name holding no line feed are one command line each. */
  lemma GreetingLines(host: string)
    requires '\n' !in host
    ensures Completed(HeloCommand(host)) == ["HELO " + host] && Tail(HeloCommand(host)) == []
    ensures Completed(EhloCommand(host)) == ["EHLO " + host] && Tail(EhloCommand(host)) == []
  {
    VerbLine("HELO ", host);
    VerbLine("EHLO ", host);
  }

  /** The base64 token keeps AUTH PLAIN on one line, whatever the credentials hold. */
  lemma AuthPlainLine(username: string, password: string)
    ensures var token := Base64Text("\0" + username + "\0" + password);
      && Completed(AuthPlainCommand(username, password)) == ["AUTH PLAIN " + token]
      && Tail(AuthPlainCommand(username, password)) == []
  {
    VerbLine("AUTH PLAIN ", Base64Text("\0" + username + "\0" + password));
  }

  /** The message goes out as the lines it holds, then the end-of-data line
      `.`; nothing stays buffered. No line of the message is dot-stuffed. */
  lemma DataBodyLines(source: string)
    ensures Completed(DataBody(source)) == Completed(source + CRLF) + ["."]
    ensures Tail(DataBody(source)) == []
  {
    TerminatedTail(source);
    AppendLine(source + CRLF, ".");
    assert DataBody(source) == (source + CRLF) + ("." + CRLF);
  }

  /** One more line after text the framer has consumed whole. */
  lemma AppendLine(text: string, line: string)
    requires Tail(text) == [] && IsLine(line)
    ensures Completed(text + (line + CRLF)) == Completed(text) + [line]
    ensures Tail(text + (line + CRLF)) == []
  {
    OneCommandLine(line);
    ConsumedThenMore(text, line + CRLF);
  }

  /** After text the framer has consumed whole, more text is read on its own. */
  lemma ConsumedThenMore(text: string, more: string)
    requires Tail(text) == []
    ensures Completed(text + more) == Completed(text) + Completed(more)
    ensures Tail(text + more) == Tail(more)
  {
    ChunkIndependence([], text, more);
    assert [] + text == text && [] + more == more;
  }

  /** `e.split(' ')[0]`: the keyword of an EHLO extension line. */
  function Keyword(e: string): string {
    Split(e, ' ')[0]
  }

  /** `extensions.find(e => e.split(' ')[0] === name)`: the first entry with that keyword. */
  function FindExtension(extensions: seq<string>, name: string): (r: Option<string>)
    ensures r.Some? ==> r.value in extensions && Keyword(r.value) == name
    ensures r.None? <==> forall i :: 0 <= i < |extensions| ==> Keyword(extensions[i]) != name
  {
    if extensions == [] then None
    else if Keyword(extensions[0]) == name then Some(extensions[0])
    else
      var r := FindExtension(extensions[1..], name);
      assert forall i :: 1 <= i < |extensions| ==> extensions[i] == extensions[1..][i - 1];
      r
  }

  /** `hasExtension(name)`: `!!find(...)`, so an empty entry found counts as absent. */
  function HasExtension(extensions: seq<string>, name: string): (r: bool)
    ensures r ==> exists i :: 0 <= i < |extensions| && extensions[i] != [] && Keyword(extensions[i]) == name
    ensures (forall i :: 0 <= i < |extensions| ==> Keyword(extensions[i]) != name) ==> !r
  {
    match FindExtension(extensions, name)
    case None => false
    case Some(e) => e != []
  }

  /** An entry with a keyword is never empty, unless the keyword is. */
  lemma KeywordNonEmpty(e: string)
    requires Keyword(e) != []
    ensures e != []
  {
  }

  /** For a non-empty name, the server has the extension exactly when some entry has that keyword. */
  lemma HasExtensionIff(extensions: seq<string>, name: string)
    requires name != []
    ensures HasExtension(extensions, name) <==> exists i :: 0 <= i < |extensions| && Keyword(extensions[i]) == name
  {
    var f := FindExtension(extensions, name);
    if f.Some? {
      var i :| 0 <= i < |extensions| && extensions[i] == f.value;
      KeywordNonEmpty(f.value);
    }
  }

  /** `getDataSizeLimit()`: the number after `SIZE`, 0 when the extension is
      absent, and `None` for the NaN `parseInt` gives when there is no number. */
  function GetDataSizeLimit(extensions: seq<string>): (r: Option<int>)
    ensures FindExtension(extensions, "SIZE").None? ==> r == Some(0)
  {
    match FindExtension(extensions, "SIZE")
    case None => Some(0)
    case Some(e) =>
      if e == [] then Some(0)
      else
        var parts := Split(e, ' ');
        if |parts| < 2 then None else ParseInt(parts[1])
  }

  /** For any first `SIZE` entry, the limit is `parseInt` of its second
      space-separated piece, and NaN when there is none. */
  lemma SizeLimitOfEntry(extensions: seq<string>, e: string)
    requires FindExtension(extensions, "SIZE") == Some(e)
    ensures |Split(e, ' ')| < 2 ==> GetDataSizeLimit(extensions) == None
    ensures |Split(e, ' ')| >= 2 ==> GetDataSizeLimit(extensions) == ParseInt(Split(e, ' ')[1])
  {
    KeywordNonEmpty(e);
  }

  /** A `SIZE n` entry, found first, gives the limit n. */
  lemma DataSizeLimitOf(extensions: seq<string>, n: nat)
    requires FindExtension(extensions, "SIZE") == Some("SIZE " + NatToString(n))
    ensures GetDataSizeLimit(extensions) == Some(n)
  {
    var digits := NatToString(n);
    assert ' ' !in digits by {
      forall i | 0 <= i < |digits| ensures digits[i] != ' ' {
        assert IsDigit(digits[i]);
      }
    }
    SplitJoin(["SIZE", digits], ' ');
    assert Join(["SIZE", digits], " ") == "SIZE " + digits;
    ParseIntString(n);
  }

  /** `e.trim().toUpperCase()` for every non-empty piece. */
  function Normalize(pieces: seq<string>): (r: seq<string>)
    ensures |r| <= |pieces|
    ensures forall i :: 0 <= i < |r| ==> NoLowerAscii(r[i])
  {
    if pieces == [] then []
    else (if pieces[0] != [] then [ToUpperAscii(Trim(pieces[0]))] else []) + Normalize(pieces[1..])
  }

  /** A piece that passes the `!!e` filter and trims and upper-cases to `m`. */
  predicate NamesAs(piece: string, m: string) {
    piece != [] && ToUpperAscii(Trim(piece)) == m
  }

  /** A name comes out of the filter and the mapping exactly when some
      piece names it. */
  lemma {:induction false} NormalizeMember(pieces: seq<string>, m: string)
    ensures m in Normalize(pieces) <==>
      exists i :: 0 <= i < |pieces| && NamesAs(pieces[i], m)
    decreases |pieces|
  {
    if pieces != [] {
      var rest := pieces[1..];
      NormalizeMember(rest, m);
      var head := if pieces[0] != [] then [ToUpperAscii(Trim(pieces[0]))] else [];
      assert Normalize(pieces) == head + Normalize(rest);
      if m in Normalize(rest) {
        var i :| 0 <= i < |rest| && NamesAs(rest[i], m);
        assert pieces[i + 1] == rest[i];
      }
      if exists i :: 0 <= i < |pieces| && NamesAs(pieces[i], m) {
        var i :| 0 <= i < |pieces| && NamesAs(pieces[i], m);
        if i > 0 {
          assert rest[i - 1] == pieces[i];
        }
      }
    }
  }

  /** `getAuthMechanisms()`: the words after `AUTH`, trimmed and upper-cased. */
  function GetAuthMechanisms(extensions: seq<string>): (r: seq<string>)
    ensures FindExtension(extensions, "AUTH").None? ==> r == []
    ensures forall i :: 0 <= i < |r| ==> NoLowerAscii(r[i])
  {
    match FindExtension(extensions, "AUTH")
    case None => []
    case Some(e) =>
      if e == [] then []
      else
        var words := Normalize(Split(e, ' '));
        if words == [] then [] else words[1..]
  }

  /** For any first `AUTH` entry, the `slice(1)` drops exactly the keyword:
      the mechanisms are the normalized pieces after it. */
  lemma AuthMechanismsOfEntry(extensions: seq<string>, e: string)
    requires FindExtension(extensions, "AUTH") == Some(e)
    ensures GetAuthMechanisms(extensions) == Normalize(Split(e, ' ')[1..])
  {
    var pieces := Split(e, ' ');
    KeywordNonEmpty(e);
    assert pieces[0] == "AUTH";
    assert Normalize(pieces) == [ToUpperAscii(Trim(pieces[0]))] + Normalize(pieces[1..]);
  }

  /** A mechanism is advertised exactly when some piece after the keyword of
      the first `AUTH` entry names it. */
  lemma MechanismAdvertised(extensions: seq<string>, e: string, m: string)
    requires FindExtension(extensions, "AUTH") == Some(e)
    ensures m in GetAuthMechanisms(extensions) <==>
      exists i :: 1 <= i < |Split(e, ' ')| && NamesAs(Split(e, ' ')[i], m)
  {
    AuthMechanismsOfEntry(extensions, e);
    NormalizeMember(Split(e, ' ')[1..], m);
    TailNames(Split(e, ' '), m);
  }

  /** The pieces after the first name `m` exactly when some piece from index 1 on does. */
  lemma TailNames(pieces: seq<string>, m: string)
    requires |pieces| >= 1
    ensures (exists i :: 0 <= i < |pieces[1..]| && NamesAs(pieces[1..][i], m)) <==>
            (exists i :: 1 <= i < |pieces| && NamesAs(pieces[i], m))
  {
    var rest := pieces[1..];
    if exists i :: 0 <= i < |rest| && NamesAs(rest[i], m) {
      var i :| 0 <= i < |rest| && NamesAs(rest[i], m);
      assert pieces[i + 1] == rest[i];
    }
    if exists i :: 1 <= i < |pieces| && NamesAs(pieces[i], m) {
      var i :| 1 <= i < |pieces| && NamesAs(pieces[i], m);
      assert rest[i - 1] == pieces[i];
    }
  }

  /** An upper-case word a server may name a mechanism with. */
  predicate IsMechanismName(m: string) {
    m != [] && forall i :: 0 <= i < |m| ==> !IsWhiteSpace(m[i]) && !('a' <= m[i] <= 'z')
  }

  lemma NormalName(w: string)
    requires IsMechanismName(w)
    ensures ToUpperAscii(Trim(w)) == w
  {
    assert TrimStart(w) == w;
    assert TrimEnd(w) == w;
    var u := ToUpperAscii(w);
    assert forall i :: 0 <= i < |w| ==> u[i] == w[i];
  }

  lemma {:induction false} NormalizeNames(words: seq<string>)
    requires forall i :: 0 <= i < |words| ==> IsMechanismName(words[i])
    ensures Normalize(words) == words
    decreases |words|
  {
    if words != [] {
      NormalName(words[0]);
      NormalizeNames(words[1..]);
      assert words == [words[0]] + words[1..];
    }
  }

  /** An `AUTH m1 m2 ...` entry, found first, gives back exactly its mechanisms. */
  lemma AuthMechanismsOf(extensions: seq<string>, mechanisms: seq<string>)
    requires forall i :: 0 <= i < |mechanisms| ==> IsMechanismName(mechanisms[i])
    requires FindExtension(extensions, "AUTH") == Some(Join(["AUTH"] + mechanisms, " "))
    ensures GetAuthMechanisms(extensions) == mechanisms
  {
    var words := ["AUTH"] + mechanisms;
    AuthWords(mechanisms);
    SplitJoin(words, ' ');
    NormalizeNames(words);
    var e := Join(words, " ");
    assert Split(e, ' ') == words;
    assert e == "AUTH" || e == "AUTH" + " " + Join(words[1..], " ");
    assert words[1..] == mechanisms;
  }

  /** `AUTH` followed by mechanism names: words without a space, already normal. */
  lemma AuthWords(mechanisms: seq<string>)
    requires forall i :: 0 <= i < |mechanisms| ==> IsMechanismName(mechanisms[i])
    ensures var words := ["AUTH"] + mechanisms;
      forall i :: 0 <= i < |words| ==> ' ' !in words[i] && IsMechanismName(words[i])
  {
    var words := ["AUTH"] + mechanisms;
    forall i | 0 <= i < |words| ensures ' ' !in words[i] && IsMechanismName(words[i]) {
      if i > 0 {
        assert words[i] == mechanisms[i - 1];
        NameWithoutSpace(words[i]);
      }
    }
  }

  lemma NameWithoutSpace(m: string)
    requires IsMechanismName(m)
    ensures ' ' !in m
  {
    forall j | 0 <= j < |m| ensures m[j] != ' ' {
      assert !IsWhiteSpace(m[j]);
    }
  }

  /** The index of the first `\s` character. */
  function FirstSpace(s: string): (r: Option<nat>)
    ensures r.Some? ==> r.value < |s| && IsWhiteSpace(s[r.value])
    ensures r.Some? ==> forall j :: 0 <= j < r.value ==> !IsWhiteSpace(s[j])
    ensures r.None? ==> forall j :: 0 <= j < |s| ==> !IsWhiteSpace(s[j])
  {
    if s == [] then None
    else if IsWhiteSpace(s[0]) then Some(0)
    else match FirstSpace(s[1..])
      case None => None
      case Some(i) => Some(i + 1)
  }

  /** The longest prefix without a line terminator: what a greedy `.+` takes. */
  function UpToTerminator(s: string): (r: string)
    ensures r <= s
    ensures forall j :: 0 <= j < |r| ==> !IsLineTerminator(r[j])
    ensures |r| < |s| ==> IsLineTerminator(s[|r|])
  {
    if s == [] || IsLineTerminator(s[0]) then [] else [s[0]] + UpToTerminator(s[1..])
  }

  /** `s.split(/[\s](.+)?/, 2)[1]`: what the group captures after the first
      `\s` character, or `None` (undefined) when there is no `\s` or the group
      does not take part. */
  function SplitAfterSpace(s: string): (r: Option<string>)
    ensures r.Some? ==> IsText(r.value)
    ensures r.Some? ==> exists i :: 0 <= i < |s| && IsWhiteSpace(s[i]) && r.value <= s[i + 1..]
    ensures IsWord(s) ==> r.None?
  {
    match FirstSpace(s)
    case None => None
    case Some(i) =>
      var captured := UpToTerminator(s[i + 1..]);
      if captured == [] then None else Some(captured)
  }

  /** `parseReplyText(line)`: the text after the code, without the enhanced
      status code when the server announced ENHANCEDSTATUSCODES. */
  function ParseReplyText(extensions: seq<string>, line: string): (r: Option<string>)
    ensures !HasExtension(extensions, "ENHANCEDSTATUSCODES") ==> r.Some? && Prefix(line, 4) + r.value == line
    ensures HasExtension(extensions, "ENHANCEDSTATUSCODES") && r.Some? ==>
      IsText(r.value) && exists i :: 0 <= i < |Substr(line, 4)| && IsWhiteSpace(Substr(line, 4)[i]) && r.value <= Substr(line, 4)[i + 1..]
  {
    if HasExtension(extensions, "ENHANCEDSTATUSCODES") then SplitAfterSpace(Substr(line, 4))
    else Some(Substr(line, 4))
  }

  /** `parseEnhancedReplyCode(line)`: `line.substr(4).split(' ', 2)[0]` when supported. */
  function ParseEnhancedReplyCode(extensions: seq<string>, line: string): (r: Option<string>)
    ensures r.Some? <==> HasExtension(extensions, "ENHANCEDSTATUSCODES")
    ensures r.Some? ==> var t := Substr(line, 4);
      r.value <= t && ' ' !in r.value && (|r.value| == |t| || t[|r.value|] == ' ')
  {
    SplitFirst(Substr(line, 4), ' ');
    if HasExtension(extensions, "ENHANCEDSTATUSCODES") then Some(Split(Substr(line, 4), ' ')[0]) else None
  }

  /** A reply line of a server with enhanced status codes: code, separator,
      status, one space, text. */
  function EnhancedLine(code: string, last: bool, status: string, text: string): string {
    FormatReplyLine(code, last, status + " " + text)
  }

  predicate IsWord(s: string) {
    forall j :: 0 <= j < |s| ==> !IsWhiteSpace(s[j])
  }

  predicate IsText(s: string) {
    s != [] && forall j :: 0 <= j < |s| ==> !IsLineTerminator(s[j])
  }

  /** With ENHANCEDSTATUSCODES, the status and the text of a well-formed line
      are read back. */
  lemma EnhancedLineParts(extensions: seq<string>, code: string, last: bool, status: string, text: string)
    requires HasExtension(extensions, "ENHANCEDSTATUSCODES")
    requires |code| == 3 && IsWord(status) && IsText(text)
    ensures ParseEnhancedReplyCode(extensions, EnhancedLine(code, last, status, text)) == Some(status)
    ensures ParseReplyText(extensions, EnhancedLine(code, last, status, text)) == Some(text)
  {
    var line := EnhancedLine(code, last, status, text);
    var rest := status + " " + text;
    assert Substr(line, 4) == rest;
    EnhancedStatus(status, text);
    EnhancedText(status, text);
  }

  /** The enhanced status code is the word before the first space. */
  lemma EnhancedStatus(status: string, text: string)
    requires IsWord(status)
    ensures Split(status + " " + text, ' ')[0] == status
  {
    assert ' ' !in status by {
      forall j | 0 <= j < |status| ensures status[j] != ' ' {
        assert !IsWhiteSpace(status[j]);
      }
    }
    SplitAtSeparator(status, text, ' ');
    assert status + " " + text == status + [' '] + text;
  }

  /** The text is what follows the first white space after the status. */
  lemma EnhancedText(status: string, text: string)
    requires IsWord(status) && IsText(text)
    ensures SplitAfterSpace(status + " " + text) == Some(text)
  {
    var rest := status + " " + text;
    assert FirstSpace(rest) == Some(|status|) by {
      FirstSpaceAfterWord(status, " " + text);
      assert rest == status + (" " + text);
    }
    assert rest[|status| + 1..] == text;
    UpToTerminatorWhole(text);
  }

  lemma {:induction false} FirstSpaceAfterWord(word: string, rest: string)
    requires IsWord(word) && rest != [] && IsWhiteSpace(rest[0])
    ensures FirstSpace(word + rest) == Some(|word|)
    decreases |word|
  {
    if word == [] {
      assert word + rest == rest;
    } else {
      FirstSpaceAfterWord(word[1..], rest);
      assert (word + rest)[1..] == word[1..] + rest;
    }
  }

  lemma {:induction false} UpToTerminatorWhole(s: string)
    requires forall j :: 0 <= j < |s| ==> !IsLineTerminator(s[j])
    ensures UpToTerminator(s) == s
    decreases |s|
  {
    if s != [] {
      UpToTerminatorWhole(s[1..]);
      assert s == [s[0]] + s[1..];
    }
  }

  /** Without ENHANCEDSTATUSCODES the text is everything after the code and its separator. */
  lemma PlainReplyText(extensions: seq<string>, code: string, last: bool, text: string)
    requires !HasExtension(extensions, "ENHANCEDSTATUSCODES") && |code| == 3
    ensures ParseReplyText(extensions, FormatReplyLine(code, last, text)) == Some(text)
    ensures ParseEnhancedReplyCode(extensions, FormatReplyLine(code, last, text)) == None
  {
    assert FormatReplyLine(code, last, text)[4..] == text;
  }

  /** The errors the client raises. */
  datatype SmtpError =
    | ResponseError(message: string, code: Option<string>, enhancedCode: Option<string>)
    | Rejection(reason: Delivery.Reason)  // a promise of the channel rejected
    | UndefinedAccess                      // the TypeError of reading a property of undefined
    | SizeLimit(limit: int)                // the message is larger than the SIZE limit
    | NoStartTls                           // STARTTLS is not advertised
    | NoLogin                              // LOGIN is not among the AUTH mechanisms

  /** `lines.map(l => parseReplyText(l))`, an undefined text joined as "". */
  function Texts(extensions: seq<string>, lines: seq<string>): (r: seq<string>)
    ensures |r| == |lines|
    ensures forall i :: 0 <= i < |lines| ==> r[i] == ParseReplyText(extensions, lines[i]).GetOr([])
  {
    if lines == [] then [] else [ParseReplyText(extensions, lines[0]).GetOr([])] + Texts(extensions, lines[1..])
  }

  /** `_createSMTPResponseError(lines)`. With no line, the code is null and the
      enhanced code reads a property of undefined when it is supported. */
  function CreateResponseError(extensions: seq<string>, lines: seq<string>): (e: SmtpError)
    ensures e.ResponseError? <==> lines != [] || !HasExtension(extensions, "ENHANCEDSTATUSCODES")
    ensures e.ResponseError? ==> NoWhiteSpaceRun(e.message)
    ensures e.ResponseError? ==> e.code == (if lines == [] then None else ParseReplyCode(Some(Last(lines))))
    ensures e.ResponseError? && lines != [] ==> e.enhancedCode == ParseEnhancedReplyCode(extensions, Last(lines))
  {
    if lines == [] && HasExtension(extensions, "ENHANCEDSTATUSCODES") then UndefinedAccess
    else
      var line := if lines == [] then None else Some(Last(lines));
      var enhanced := if lines == [] then None else ParseEnhancedReplyCode(extensions, Last(lines));
      ResponseError(CollapseWhiteSpace(Join(Texts(extensions, lines), " ")), ParseReplyCode(line), enhanced)
  }

  /** A one-line reply of a server without enhanced status codes gives its code
      and its text, with runs of white space collapsed. */
  lemma SingleLineError(extensions: seq<string>, code: string, text: string)
    requires !HasExtension(extensions, "ENHANCEDSTATUSCODES") && |code| == 3
    ensures CreateResponseError(extensions, [FormatReplyLine(code, true, text)])
      == ResponseError(CollapseWhiteSpace(text), Some(code), None)
  {
    var line := FormatReplyLine(code, true, text);
    PlainReplyText(extensions, code, true, text);
    ParseFormatted(code, true, text);
    assert Texts(extensions, [line]) == [text];
  }

  /** `host.match(/^\d{1,3}\.\d{1,3}\.\d{1,3}\.\d{1,3}$/)`. */
  predicate IsDottedQuad(host: string) {
    var parts := Split(host, '.');
    |parts| == 4 && forall i :: 0 <= i < 4 ==> 1 <= |parts[i]| <= 3 && forall j :: 0 <= j < |parts[i]| ==> IsDigit(parts[i][j])
  }

  /** `_getHostname()`, given what `os.hostname()` returns. */
  function GetHostname(osHostname: Option<string>): (h: string)
    ensures '.' in h
    ensures (!Truthy(osHostname) || '.' !in osHostname.value) ==> h == "[127.0.0.1]"
  {
    var host := if Truthy(osHostname) then osHostname.value else [];
    if '.' !in host then "[127.0.0.1]"
    else if IsDottedQuad(host) then "[" + host + "]"
    else host
  }

  /** One to three decimal digits: a group of `\d{1,3}`. */
  predicate IsDigitGroup(g: string) {
    1 <= |g| <= 3 && forall j :: 0 <= j < |g| ==> IsDigit(g[j])
  }

  /** Four digit groups joined by dots are an address, and are sent bracketed. */
  lemma HostnameOfAddress(a: string, b: string, c: string, d: string)
    requires IsDigitGroup(a) && IsDigitGroup(b) && IsDigitGroup(c) && IsDigitGroup(d)
    ensures GetHostname(Some(a + "." + b + "." + c + "." + d)) == "[" + a + "." + b + "." + c + "." + d + "]"
  {
    JoinFour(a, b, c, d, ".");
    QuadOfGroups([a, b, c, d]);
    HostnameOfQuad(a + "." + b + "." + c + "." + d);
  }

  /** Joining four digit groups with dots gives a dotted string the pattern matches. */
  lemma QuadOfGroups(groups: seq<string>)
    requires |groups| == 4 && forall i :: 0 <= i < 4 ==> IsDigitGroup(groups[i])
    ensures '.' in Join(groups, ".") && IsDottedQuad(Join(groups, "."))
  {
    forall i | 0 <= i < 4 ensures '.' !in groups[i] {
      GroupWithoutDot(groups[i]);
    }
    SplitJoin(groups, '.');
    SplitSingle(Join(groups, "."), '.');
  }

  lemma HostnameOfQuad(host: string)
    requires '.' in host && IsDottedQuad(host)
    ensures GetHostname(Some(host)) == "[" + host + "]"
  {
  }

  lemma JoinFour(a: string, b: string, c: string, d: string, sep: string)
    ensures Join([a, b, c, d], sep) == a + sep + b + sep + c + sep + d
  {
    assert [a, b, c, d][1..] == [b, c, d];
    assert [b, c, d][1..] == [c, d];
    assert [c, d][1..] == [d];
    assert Join([c, d], sep) == c + sep + d;
    assert Join([b, c, d], sep) == b + sep + (c + sep + d);
  }

  lemma GroupWithoutDot(g: string)
    requires IsDigitGroup(g)
    ensures '.' !in g
  {
    forall j | 0 <= j < |g| ensures g[j] != '.' {
      assert IsDigit(g[j]);
    }
  }

  /** A dotted name with a character that is neither a digit nor a dot is not
      an address, so it is sent as it is. */
  lemma HostnameOfName(host: string, j: nat)
    requires '.' in host && j < |host| && !IsDigit(host[j]) && host[j] != '.'
    ensures GetHostname(Some(host)) == host
  {
    InSplit(host, '.', j);
    var parts := Split(host, '.');
    var k :| 0 <= k < |parts| && host[j] in parts[k];
    var m :| 0 <= m < |parts[k]| && parts[k][m] == host[j];
    assert !IsDottedQuad(host);
  }

  /** `hostname || this._getHostname()`: the name HELO and EHLO send. */
  function GreetingHost(hostname: Option<string>, osHostname: Option<string>): (h: string)
    ensures Truthy(hostname) ==> h == hostname.value
    ensures !Truthy(hostname) ==> '.' in h
  {
    if Truthy(hostname) then hostname.value else GetHostname(osHostname)
  }

  /** `code.match(/^334\s+(.+)$/)[1]`: the challenge of a CRAM-MD5 reply. The
      `\s+` is greedy and gives back one character only when `.+` needs it. */
  function MatchChallenge(code: string): (r: Option<string>)
    ensures r.Some? ==> |code| >= 5 && code[..3] == "334" && IsText(r.value)
    ensures r.Some? ==> |r.value| <= |code| - 4 && code[|code| - |r.value|..] == r.value
    ensures r.Some? ==> forall j :: 3 <= j < |code| - |r.value| ==> IsWhiteSpace(code[j])
  {
    if |code| < 5 || code[..3] != "334" || !IsWhiteSpace(code[3]) then None
    else
      var rest := TrimStart(code[3..]);
      if rest != [] then
        (if forall j :: 0 <= j < |rest| ==> !IsLineTerminator(rest[j]) then Some(rest) else None)
      else if !IsLineTerminator(code[|code| - 1]) then Some([code[|code| - 1]])
      else None
  }

  /** A reply code has at most three characters, so it never holds a challenge. */
  lemma NoChallengeInCode(code: string)
    requires |code| <= 3
    ensures MatchChallenge(code) == None
  {
  }

  /** A well-formed challenge line does hold one. */
  lemma ChallengeOfLine(challenge: string)
    requires IsText(challenge) && !IsWhiteSpace(challenge[0])
    ensures MatchChallenge("334 " + challenge) == Some(challenge)
  {
    var code := "334 " + challenge;
    assert code[..3] == "334" && code[3] == ' ';
    assert code[3..] == [' '] + challenge;
    assert TrimStart(code[3..]) == TrimStart(challenge);
  }
}
