/**
 * `Buffer.from(s, 'utf-8').toString('base64')`, as the AUTH PLAIN and AUTH
 * LOGIN commands use it: UTF-8 encoding of the string, then the base64
 * alphabet of section 4 of RFC 4648 with `=` padding. A strict decoder is the
 * encoder's partner.
 */
module Base64 {
  import opened Wrappers

  type Byte = b: int | 0 <= b < 256

  /** The UTF-8 form of one Unicode scalar value (RFC 3629). */
  function Utf8Char(c: char): (bytes: seq<Byte>)
    ensures 1 <= |bytes| <= 4
    ensures (c as int < 0x80) <==> (bytes == [c as int])
    ensures !IsContinuation(bytes[0])
    ensures forall i :: 1 <= i < |bytes| ==> IsContinuation(bytes[i])
  {
    var n := c as int;
    if n < 0x80 then [n]
    else if n < 0x800 then [0xC0 + n / 0x40, 0x80 + n % 0x40]
    else if n < 0x10000 then [0xE0 + n / 0x1000, 0x80 + (n / 0x40) % 0x40, 0x80 + n % 0x40]
    else [0xF0 + n / 0x40000, 0x80 + (n / 0x1000) % 0x40, 0x80 + (n / 0x40) % 0x40, 0x80 + n % 0x40]
  }

  /** A byte `10xxxxxx`, which only ever follows the lead byte of a character. */
  predicate IsContinuation(b: Byte) {
    0x80 <= b < 0xC0
  }

  /** `Buffer.from(s, 'utf-8')`: one to four bytes per character, each
      character's bytes starting with a lead byte. */
  function Utf8(s: string): (bytes: seq<Byte>)
    ensures |s| <= |bytes| <= 4 * |s|
    ensures s != [] ==> !IsContinuation(bytes[0])
  {
    if s == [] then [] else Utf8Char(s[0]) + Utf8(s[1..])
  }

  predicate IsAscii(s: string) {
    forall i :: 0 <= i < |s| ==> s[i] as int < 0x80
  }

  /** On ASCII text UTF-8 is the identity on code points. */
  lemma {:induction false} Utf8Ascii(s: string)
    requires IsAscii(s)
    ensures |Utf8(s)| == |s|
    ensures forall i :: 0 <= i < |s| ==> Utf8(s)[i] == s[i] as int
    decreases |s|
  {
    if s != [] {
      Utf8Ascii(s[1..]);
      assert Utf8(s) == [s[0] as int] + Utf8(s[1..]);
      forall i | 1 <= i < |s| ensures Utf8(s)[i] == s[i] as int {
        assert s[1..][i - 1] == s[i];
      }
    }
  }

  type Sextet = k: int | 0 <= k < 64

  /** The RFC 4648 alphabet: `A`-`Z`, `a`-`z`, `0`-`9`, `+`, `/`. */
  function Symbol(k: Sextet): (c: char)
    ensures c != '=' && c != '\n' && c != '\r'
  {
    if k < 26 then ('A' as int + k) as char
    else if k < 52 then ('a' as int + (k - 26)) as char
    else if k < 62 then ('0' as int + (k - 52)) as char
    else if k == 62 then '+'
    else '/'
  }

  /** The position of a character in the alphabet, if it is in it. */
  function SymbolValue(c: char): (v: Option<Sextet>)
    ensures c == '=' ==> v.None?
  {
    if 'A' <= c <= 'Z' then Some(c as int - 'A' as int)
    else if 'a' <= c <= 'z' then Some(c as int - 'a' as int + 26)
    else if '0' <= c <= '9' then Some(c as int - '0' as int + 52)
    else if c == '+' then Some(62)
    else if c == '/' then Some(63)
    else None
  }

  lemma SymbolValueOfSymbol(k: Sextet)
    ensures SymbolValue(Symbol(k)) == Some(k)
  {
  }

  /** Every character with a value is the symbol of that value. */
  lemma SymbolOfSymbolValue(c: char)
    requires SymbolValue(c).Some?
    ensures Symbol(SymbolValue(c).value) == c
  {
  }

  /** The four sextets of a 3-byte group, most significant bits first. */
  function Hi(b0: Byte): Sextet { b0 / 4 }
  function HiMid(b0: Byte, b1: Byte): Sextet { (b0 % 4) * 16 + b1 / 16 }
  function LoMid(b1: Byte, b2: Byte): Sextet { (b1 % 16) * 4 + b2 / 64 }
  function Lo(b2: Byte): Sextet { b2 % 64 }

  /** The bytes of a group back from its sextets. */
  function First(v0: Sextet, v1: Sextet): Byte { v0 * 4 + v1 / 16 }
  function Second(v1: Sextet, v2: Sextet): Byte { (v1 % 16) * 16 + v2 / 4 }
  function Third(v2: Sextet, v3: Sextet): Byte { (v2 % 4) * 64 + v3 }

  lemma GroupRoundTrip(b0: Byte, b1: Byte, b2: Byte)
    ensures First(Hi(b0), HiMid(b0, b1)) == b0
    ensures Second(HiMid(b0, b1), LoMid(b1, b2)) == b1
    ensures Third(LoMid(b1, b2), Lo(b2)) == b2
  {
  }

  function EncodeQuad(b0: Byte, b1: Byte, b2: Byte): string {
    [Symbol(Hi(b0)), Symbol(HiMid(b0, b1)), Symbol(LoMid(b1, b2)), Symbol(Lo(b2))]
  }

  /** Base64 of a byte string: every 3 bytes become 4 symbols, and a last
      group of 1 or 2 bytes is padded with `==` or `=`. */
  function Encode(b: seq<Byte>): (r: string)
    ensures |r| == 4 * ((|b| + 2) / 3)
    ensures '\n' !in r
  {
    if |b| == 0 then []
    else if |b| == 1 then [Symbol(Hi(b[0])), Symbol(HiMid(b[0], 0)), '=', '=']
    else if |b| == 2 then [Symbol(Hi(b[0])), Symbol(HiMid(b[0], b[1])), Symbol(LoMid(b[1], 0)), '=']
    else EncodeQuad(b[0], b[1], b[2]) + Encode(b[3..])
  }

  /** Four symbols without padding. */
  function DecodeQuad(c0: char, c1: char, c2: char, c3: char): Option<seq<Byte>> {
    var v0, v1, v2, v3 := SymbolValue(c0), SymbolValue(c1), SymbolValue(c2), SymbolValue(c3);
    if v0.None? || v1.None? || v2.None? || v3.None? then None
    else Some([First(v0.value, v1.value), Second(v1.value, v2.value), Third(v2.value, v3.value)])
  }

  /** The last group, which may end in `==` (one byte) or `=` (two bytes). */
  function DecodeLast(c0: char, c1: char, c2: char, c3: char): Option<seq<Byte>> {
    var v0, v1, v2 := SymbolValue(c0), SymbolValue(c1), SymbolValue(c2);
    if c2 == '=' && c3 == '=' then
      if v0.None? || v1.None? then None else Some([First(v0.value, v1.value)])
    else if c3 == '=' then
      if v0.None? || v1.None? || v2.None? then None
      else Some([First(v0.value, v1.value), Second(v1.value, v2.value)])
    else DecodeQuad(c0, c1, c2, c3)
  }

  /** Strict base64 decoding: groups of 4 symbols, `=` only as the padding of
      the last group. */
  function Decode(s: string): (r: Option<seq<Byte>>)
    decreases |s|
  {
    if |s| == 0 then Some([])
    else if |s| < 4 then None
    else if |s| == 4 then DecodeLast(s[0], s[1], s[2], s[3])
    else match DecodeQuad(s[0], s[1], s[2], s[3])
      case None => None
      case Some(group) =>
        match Decode(s[4..])
        case None => None
        case Some(rest) => Some(group + rest)
  }

  lemma QuadRoundTrip(b0: Byte, b1: Byte, b2: Byte)
    ensures DecodeQuad(Symbol(Hi(b0)), Symbol(HiMid(b0, b1)), Symbol(LoMid(b1, b2)), Symbol(Lo(b2))) == Some([b0, b1, b2])
  {
    var k0, k1, k2, k3 := Hi(b0), HiMid(b0, b1), LoMid(b1, b2), Lo(b2);
    SymbolValues(k0, k1, k2, k3);
    GroupRoundTrip(b0, b1, b2);
    assert First(k0, k1) == b0 && Second(k1, k2) == b1 && Third(k2, k3) == b2;
  }

  /** The value of the symbol of a sextet, as an optional value. */
  lemma SymbolValues(k0: Sextet, k1: Sextet, k2: Sextet, k3: Sextet)
    ensures SymbolValue(Symbol(k0)) == Some(k0) && SymbolValue(Symbol(k1)) == Some(k1)
    ensures SymbolValue(Symbol(k2)) == Some(k2) && SymbolValue(Symbol(k3)) == Some(k3)
  {
    SymbolValueOfSymbol(k0);
    SymbolValueOfSymbol(k1);
    SymbolValueOfSymbol(k2);
    SymbolValueOfSymbol(k3);
  }

  lemma DecodeDoublePad(c0: char, c1: char, v0: Sextet, v1: Sextet)
    requires SymbolValue(c0) == Some(v0) && SymbolValue(c1) == Some(v1)
    ensures DecodeLast(c0, c1, '=', '=') == Some([First(v0, v1)])
  {
  }

  lemma DecodeOne(b0: Byte)
    ensures Decode(Encode([b0])) == Some([b0])
  {
    var k0, k1 := Hi(b0), HiMid(b0, 0);
    var s := Encode([b0]);
    assert s == [Symbol(k0), Symbol(k1), '=', '='];
    DecodeFour(s);
    SymbolValues(k0, k1, 0, 0);
    GroupRoundTrip(b0, 0, 0);
    DecodeDoublePad(Symbol(k0), Symbol(k1), k0, k1);
  }

  /** A last group of four symbols is decoded on its own. */
  lemma DecodeFour(s: string)
    requires |s| == 4
    ensures Decode(s) == DecodeLast(s[0], s[1], s[2], s[3])
  {
  }

  lemma DecodeTwo(b0: Byte, b1: Byte)
    ensures Decode(Encode([b0, b1])) == Some([b0, b1])
  {
    var k0, k1, k2 := Hi(b0), HiMid(b0, b1), LoMid(b1, 0);
    var s := Encode([b0, b1]);
    assert s == [Symbol(k0), Symbol(k1), Symbol(k2), '='];
    SymbolValues(k0, k1, k2, 0);
    GroupRoundTrip(b0, b1, 0);
    assert First(k0, k1) == b0 && Second(k1, k2) == b1;
    assert DecodeLast(Symbol(k0), Symbol(k1), Symbol(k2), '=') == Some([First(k0, k1), Second(k1, k2)]);
  }

  lemma DecodeGroup(b0: Byte, b1: Byte, b2: Byte, rest: seq<Byte>)
    requires Decode(Encode(rest)) == Some(rest)
    ensures Decode(EncodeQuad(b0, b1, b2) + Encode(rest)) == Some([b0, b1, b2] + rest)
  {
    var s := EncodeQuad(b0, b1, b2) + Encode(rest);
    QuadRoundTrip(b0, b1, b2);
    assert s[4..] == Encode(rest);
    if rest == [] {
      assert s == EncodeQuad(b0, b1, b2);
      assert s[2] == Symbol(LoMid(b1, b2)) && s[3] == Symbol(Lo(b2));
      assert DecodeLast(s[0], s[1], s[2], s[3]) == DecodeQuad(s[0], s[1], s[2], s[3]);
      assert |s| == 4 && Decode(s) == DecodeLast(s[0], s[1], s[2], s[3]);
      assert [b0, b1, b2] + rest == [b0, b1, b2];
    }
  }

  /** Decoding undoes encoding. */
  lemma {:induction false} DecodeEncode(b: seq<Byte>)
    ensures Decode(Encode(b)) == Some(b)
    decreases |b|
  {
    if |b| == 1 {
      DecodeOne(b[0]);
      assert b == [b[0]];
    } else if |b| == 2 {
      DecodeTwo(b[0], b[1]);
      assert b == [b[0], b[1]];
    } else if |b| >= 3 {
      DecodeEncode(b[3..]);
      DecodeLonger(b);
    }
  }

  /** The step of `DecodeEncode` for three bytes or more. */
  lemma DecodeLonger(b: seq<Byte>)
    requires |b| >= 3 && Decode(Encode(b[3..])) == Some(b[3..])
    ensures Decode(Encode(b)) == Some(b)
  {
    EncodeLonger(b);
    DecodeGroup(b[0], b[1], b[2], b[3..]);
    ThreeAndRest(b);
  }

  lemma EncodeLonger(b: seq<Byte>)
    requires |b| >= 3
    ensures Encode(b) == EncodeQuad(b[0], b[1], b[2]) + Encode(b[3..])
  {
  }

  lemma ThreeAndRest<T>(b: seq<T>)
    requires |b| >= 3
    ensures b == [b[0], b[1], b[2]] + b[3..]
  {
  }

  /** `Buffer.from(text, 'utf-8').toString('base64')`. */
  function Base64Text(text: string): (r: string)
    ensures '\n' !in r
  {
    Encode(Utf8(text))
  }

  /** Nine bytes are three whole groups. */
  lemma EncodeNine(b: seq<Byte>)
    requires |b| == 9
    ensures Encode(b) == EncodeQuad(b[0], b[1], b[2]) + EncodeQuad(b[3], b[4], b[5]) + EncodeQuad(b[6], b[7], b[8])
  {
    var rest := b[3..];
    assert Encode(b) == EncodeQuad(b[0], b[1], b[2]) + Encode(rest);
    assert Encode(rest) == EncodeQuad(rest[0], rest[1], rest[2]) + Encode(rest[3..]);
    var last := rest[3..];
    assert Encode(last) == EncodeQuad(last[0], last[1], last[2]) + Encode(last[3..]);
    assert last[3..] == [];
  }

  lemma UsernameBytes()
    ensures Utf8("Username:") == [85, 115, 101, 114, 110, 97, 109, 101, 58]
  {
    Utf8Ascii("Username:");
  }

  lemma PasswordBytes()
    ensures Utf8("Password:") == [80, 97, 115, 115, 119, 111, 114, 100, 58]
  {
    Utf8Ascii("Password:");
  }

  /** The server's AUTH LOGIN prompt for the user name is base64 of "Username:". */
  lemma UsernamePrompt()
    ensures Base64Text("Username:") == "VXNlcm5hbWU6"
  {
    var u: seq<Byte> := [85, 115, 101, 114, 110, 97, 109, 101, 58];
    UsernameBytes();
    EncodeNine(u);
    UsernameGroups();
  }

  lemma UsernameGroups()
    ensures EncodeQuad(85, 115, 101) + EncodeQuad(114, 110, 97) + EncodeQuad(109, 101, 58) == "VXNlcm5hbWU6"
  {
    assert EncodeQuad(85, 115, 101) == "VXNl";
    assert EncodeQuad(114, 110, 97) == "cm5h";
    assert EncodeQuad(109, 101, 58) == "bWU6";
  }

  /** The server's AUTH LOGIN prompt for the password is base64 of "Password:". */
  lemma PasswordPrompt()
    ensures Base64Text("Password:") == "UGFzc3dvcmQ6"
  {
    var p: seq<Byte> := [80, 97, 115, 115, 119, 111, 114, 100, 58];
    PasswordBytes();
    EncodeNine(p);
    PasswordGroups();
  }

  lemma PasswordGroups()
    ensures EncodeQuad(80, 97, 115) + EncodeQuad(115, 119, 111) + EncodeQuad(114, 100, 58) == "UGFzc3dvcmQ6"
  {
    assert EncodeQuad(80, 97, 115) == "UGFz";
    assert EncodeQuad(115, 119, 111) == "c3dv";
    assert EncodeQuad(114, 100, 58) == "cmQ6";
  }
}
