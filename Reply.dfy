/**
 * Reading one server reply line (section 4.2.1 of RFC 5321): the reply code is
 * the first three characters, and the line is the last one of a multi-line
 * reply when its fourth character is a space (a `-` there means more lines
 * follow). `parseReplyCode` and `isLastReply` of smtp-channel.ts.
 */
module Reply {
  import opened Wrappers
  import opened JsText

  /** JavaScript truthiness of an optional string: present and non-empty. */
  predicate Truthy(line: Option<string>) {
    line.Some? && line.value != []
  }

  /** `parseReplyCode(line)`: `line ? line.substr(0, 3) : null`. */
  function ParseReplyCode(line: Option<string>): (code: Option<string>)
    ensures code.Some? <==> Truthy(line)
    ensures code.Some? ==> code.value <= line.value
    ensures code.Some? ==> |code.value| == if |line.value| < 3 then |line.value| else 3
  {
    if Truthy(line) then Some(Prefix(line.value, 3)) else None
  }

  /** `isLastReply(line)`: `line ? line.charAt(3) === ' ' : null`. */
  function IsLastReply(line: Option<string>): (last: Option<bool>)
    ensures last.Some? <==> Truthy(line)
    ensures last == Some(true) <==> Truthy(line) && |line.value| > 3 && line.value[3] == ' '
  {
    if Truthy(line) then Some(|line.value| > 3 && line.value[3] == ' ') else None
  }

  /** A reply line as RFC 5321 writes it: the code, `-` or space, the text. */
  function FormatReplyLine(code: string, last: bool, text: string): string {
    code + (if last then " " else "-") + text
  }

  /** Reading a well-formed line gives back its code and its continuation mark. */
  lemma ParseFormatted(code: string, last: bool, text: string)
    requires |code| == 3
    ensures ParseReplyCode(Some(FormatReplyLine(code, last, text))) == Some(code)
    ensures IsLastReply(Some(FormatReplyLine(code, last, text))) == Some(last)
  {
    var line := FormatReplyLine(code, last, text);
    assert line[..3] == code;
    assert line[3] == if last then ' ' else '-';
  }

  /** A code is a success code when its first character is `2` (`code.charAt(0) === '2'`). */
  predicate StartsWith(code: string, digit: char) {
    code != [] && code[0] == digit
  }
}
