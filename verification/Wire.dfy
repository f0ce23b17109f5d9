/** The error envelope of the service APIs, as the JSON text that travels. A string is its
    Unicode scalar values, so it is valid UTF-8 by construction. */
module Wire {
  import opened Calls

  const BACKSLASH := '\\'
  const QUOTE := '\"'
  const REPLACEMENT: char := '\U{FFFD}'

  /** Around the two string literals of `{"code":"…","message":"…"}`. */
  const HEAD := "{\"code\":\""
  const MIDDLE := ",\"message\":\""
  const TAIL := "}"

  datatype Envelope = Envelope(code: string, message: string)

  // ---------------------------------------------------------------- writing

  function HexDigit(d: nat): char
    requires d < 16
  {
    if d < 10 then '0' + d as char else 'a' + (d - 10) as char
  }

  function Hex4(n: nat): (s: string)
    requires n < 0x10000
    ensures |s| == 4
  {
    [HexDigit(n / 0x1000), HexDigit(n / 0x100 % 16), HexDigit(n / 16 % 16), HexDigit(n % 16)]
  }

  /** The letter of a two-character escape, if the encoder has one for this character. */
  function ShortEscape(c: char): Option<char> {
    if c == QUOTE || c == BACKSLASH then Some(c)
    else if c as int == 8 then Some('b')
    else if c as int == 12 then Some('f')
    else if c == '\n' then Some('n')
    else if c == '\r' then Some('r')
    else if c == '\t' then Some('t')
    else None
  }

  /** The other control characters, what HTML gives meaning to, and two line separators. */
  predicate HexEscaped(c: char) {
    c as int < 0x20 || c in {'<', '>', '&'} || c as int in {0x2028, 0x2029}
  }

  function Escaped(c: char): (s: string)
    ensures s != ""
  {
    match ShortEscape(c)
    case Some(letter) => [BACKSLASH, letter]
    case None => if HexEscaped(c) then [BACKSLASH, 'u'] + Hex4(c as int) else [c]
  }

  function Quoted(s: string): string {
    if s == "" then "" else Escaped(s[0]) + Quoted(s[1..])
  }

  function Marshal(e: Envelope): string {
    HEAD + (Quoted(e.code) + [QUOTE] + (MIDDLE + (Quoted(e.message) + [QUOTE] + TAIL)))
  }

  // ---------------------------------------------------------------- reading

  function HexValue(c: char): Option<nat> {
    if '0' <= c <= '9' then Some((c - '0') as nat)
    else if 'a' <= c <= 'f' then Some((c - 'a') as nat + 10)
    else if 'A' <= c <= 'F' then Some((c - 'A') as nat + 10)
    else None
  }

  function ReadHex4(s: string): (r: Option<nat>)
    ensures r.Some? ==> |s| >= 4 && r.value < 0x10000
  {
    if |s| < 4 || HexValue(s[0]).None? || HexValue(s[1]).None? || HexValue(s[2]).None? || HexValue(s[3]).None? then None
    else
      DigitsAreSmall(s[0], s[1], s[2], s[3]);
      Some(HexValue(s[0]).value * 0x1000 + HexValue(s[1]).value * 0x100
           + HexValue(s[2]).value * 16 + HexValue(s[3]).value)
  }

  lemma DigitsAreSmall(a: char, b: char, c: char, d: char)
    ensures forall x :: x in [a, b, c, d] && HexValue(x).Some? ==> HexValue(x).value < 16
  {
  }

  predicate High(n: nat) { 0xD800 <= n < 0xDC00 }
  predicate Low(n: nat) { 0xDC00 <= n < 0xE000 }

  /** A character and how much spells it, after the backslash. Surrogates count in pairs; a lone
      one becomes the replacement character. */
  function ReadEscape(s: string): (r: Option<(char, nat)>)
    ensures r.Some? ==> 1 <= r.value.1 <= |s|
  {
    if s == "" then None
    else if s[0] in {QUOTE, BACKSLASH, '/'} then Some((s[0], 1))
    else if s[0] == 'b' then Some((8 as char, 1))
    else if s[0] == 'f' then Some((12 as char, 1))
    else if s[0] == 'n' then Some(('\n', 1))
    else if s[0] == 'r' then Some(('\r', 1))
    else if s[0] == 't' then Some(('\t', 1))
    else if s[0] != 'u' then None
    else match ReadHex4(s[1..])
      case None => None
      case Some(n) =>
        if !High(n) && !Low(n) then Some((n as char, 5))
        else if |s| >= 11 && s[5] == BACKSLASH && s[6] == 'u' && ReadHex4(s[7..]).Some?
                && High(n) && Low(ReadHex4(s[7..]).value)
        then
          var low := ReadHex4(s[7..]).value;
          Some(((0x10000 + (n - 0xD800) * 0x400 + (low - 0xDC00)) as char, 11))
        else Some((REPLACEMENT, 5))
  }

  function Before(c: char, read: Option<(string, string)>): Option<(string, string)> {
    match read
    case None => None
    case Some((value, rest)) => Some(([c] + value, rest))
  }

  /** The rest of a string literal after its opening quote, and what follows the closing one. */
  function ReadString(s: string): Option<(string, string)>
    decreases |s|
  {
    if s == "" then None
    else if s[0] == QUOTE then Some(("", s[1..]))
    else if s[0] != BACKSLASH then (if s[0] as int < 0x20 then None else Before(s[0], ReadString(s[1..])))
    else match ReadEscape(s[1..])
      case None => None
      case Some((c, n)) => Before(c, ReadString(s[1..][n..]))
  }

  function Expect(s: string, text: string): Option<string> {
    if |text| <= |s| && s[..|text|] == text then Some(s[|text|..]) else None
  }

  /** The first JSON value of a body; what follows it is not looked at. */
  function Unmarshal(s: string): Option<Envelope> {
    match Expect(s, HEAD)
    case None => None
    case Some(codeOn) =>
      match ReadString(codeOn)
      case None => None
      case Some((code, middleOn)) =>
        match Expect(middleOn, MIDDLE)
        case None => None
        case Some(messageOn) =>
          match ReadString(messageOn)
          case None => None
          case Some((message, tailOn)) =>
            if Expect(tailOn, TAIL).Some? then Some(Envelope(code, message)) else None
  }

  // ---------------------------------------------------------------- whole texts read back

  lemma ExpectWhole(text: string, rest: string)
    ensures Expect(text + rest, text) == Some(rest)
  {
  }

  lemma DigitRoundTrip(d: nat)
    requires d < 16
    ensures HexValue(HexDigit(d)) == Some(d)
  {
  }

  lemma HexDigits(n: nat)
    requires n < 0x10000
    ensures n / 0x1000 < 16
    ensures n / 0x1000 * 0x1000 + n / 0x100 % 16 * 0x100 + n / 16 % 16 * 16 + n % 16 == n
  {
    assert n / 16 / 16 == n / 0x100 && n / 0x100 / 16 == n / 0x1000;
  }

  lemma HexRoundTrip(n: nat, rest: string)
    requires n < 0x10000
    ensures ReadHex4(Hex4(n) + rest) == Some(n)
  {
    HexDigits(n);
    DigitRoundTrip(n / 0x1000);
    DigitRoundTrip(n / 0x100 % 16);
    DigitRoundTrip(n / 16 % 16);
    DigitRoundTrip(n % 16);
    FirstFour(Hex4(n), rest);
  }

  lemma FirstFour(four: string, rest: string)
    requires |four| == 4
    ensures var s := four + rest;
            |s| >= 4 && s[0] == four[0] && s[1] == four[1] && s[2] == four[2] && s[3] == four[3]
  {
  }

  lemma AfterFirst(a: string, rest: string)
    requires a != ""
    ensures (a + rest)[0] == a[0] && (a + rest)[1..] == a[1..] + rest && (a + rest)[1..][|a| - 1..] == rest
  {
  }

  lemma ShortEscapeReads(c: char, rest: string)
    requires ShortEscape(c).Some?
    ensures ReadEscape([ShortEscape(c).value] + rest) == Some((c, 1))
  {
  }

  lemma HexEscapeReads(n: nat, rest: string)
    requires n < 0xD800
    ensures ReadEscape(['u'] + Hex4(n) + rest) == Some((n as char, 5))
  {
    var s := ['u'] + Hex4(n) + rest;
    assert s[1..] == Hex4(n) + rest;
    HexRoundTrip(n, rest);
  }

  lemma EscapeReadsBack(e: string, c: char, rest: string)
    requires e != "" && e[0] == BACKSLASH && ReadEscape(e[1..] + rest) == Some((c, |e| - 1))
    ensures ReadString(e + rest) == Before(c, ReadString(rest))
  {
    AfterFirst(e, rest);
  }

  lemma PlainReadsBack(c: char, rest: string)
    requires c != QUOTE && c != BACKSLASH && c as int >= 0x20
    ensures ReadString([c] + rest) == Before(c, ReadString(rest))
  {
  }

  lemma CharacterReadsBack(c: char, rest: string)
    ensures ReadString(Escaped(c) + rest) == Before(c, ReadString(rest))
  {
    if ShortEscape(c).Some? {
      ShortEscapeReads(c, rest);
      assert Escaped(c)[1..] == [ShortEscape(c).value];
      EscapeReadsBack(Escaped(c), c, rest);
    } else if HexEscaped(c) {
      HexEscapeReads(c as int, rest);
      assert Escaped(c)[1..] == ['u'] + Hex4(c as int);
      EscapeReadsBack(Escaped(c), c, rest);
    } else {
      PlainReadsBack(c, rest);
    }
  }

  lemma FourParts(a: string, b: string, c: string, d: string)
    ensures (a + b) + c + d == a + (b + c + d)
  {
  }

  lemma {:induction false} StringReadsBack(m: string, rest: string)
    ensures ReadString(Quoted(m) + [QUOTE] + rest) == Some((m, rest))
    decreases |m|
  {
    if m == "" {
      assert Quoted(m) + [QUOTE] + rest == [QUOTE] + rest;
      assert ([QUOTE] + rest)[1..] == rest;
    } else {
      StringReadsBack(m[1..], rest);
      CharacterReadsBack(m[0], Quoted(m[1..]) + [QUOTE] + rest);
      FourParts(Escaped(m[0]), Quoted(m[1..]), [QUOTE], rest);
      assert [m[0]] + m[1..] == m;
    }
  }

  /** Decoding undoes encoding, whatever follows the envelope. */
  lemma UnmarshalMarshal(e: Envelope, rest: string)
    ensures Unmarshal(Marshal(e) + rest) == Some(e)
  {
    var tail := TAIL + rest;
    var message := Quoted(e.message) + [QUOTE] + tail;
    var middle := MIDDLE + message;
    var code := Quoted(e.code) + [QUOTE] + middle;
    Reassociate(e, rest);
    ExpectWhole(HEAD, code);
    StringReadsBack(e.code, middle);
    ExpectWhole(MIDDLE, message);
    StringReadsBack(e.message, tail);
    ExpectWhole(TAIL, rest);
  }

  lemma Reassociate(e: Envelope, rest: string)
    ensures Marshal(e) + rest
         == HEAD + (Quoted(e.code) + [QUOTE] + (MIDDLE + (Quoted(e.message) + [QUOTE] + (TAIL + rest))))
  {
  }

  // ---------------------------------------------------------------- what is on the wire

  /** No control character, no line separator, and nothing that HTML gives meaning to. */
  predicate Plain(c: char) {
    c as int >= 0x20 && c !in {'<', '>', '&'} && c as int !in {0x2028, 0x2029}
  }

  ghost predicate AllPlain(s: string) { forall c :: c in s ==> Plain(c) }

  lemma EscapedIsPlain(c: char)
    ensures AllPlain(Escaped(c))
  {
    forall d | d in Escaped(c) ensures Plain(d) {
      if ShortEscape(c).None? && HexEscaped(c) && d in Hex4(c as int) {
        DigitsArePlain(c as int, d);
      }
    }
  }

  lemma DigitsArePlain(n: nat, d: char)
    requires n < 0x10000 && d in Hex4(n)
    ensures Plain(d)
  {
  }

  lemma {:induction false} QuotedIsPlain(s: string)
    ensures AllPlain(Quoted(s))
  {
    if s != "" {
      EscapedIsPlain(s[0]);
      QuotedIsPlain(s[1..]);
    }
  }

  /** How the encoder spells what HTML gives meaning to. */
  lemma MarkupIsSpelled()
    ensures Escaped('<') == "\\u003c" && Escaped('>') == "\\u003e" && Escaped('&') == "\\u0026"
  {
    assert Hex4('<' as int) == "003c" && Hex4('>' as int) == "003e" && Hex4('&' as int) == "0026";
  }

  /** Whatever a message holds, the envelope is one line without markup. */
  lemma EnvelopesArePlain(e: Envelope)
    ensures AllPlain(Marshal(e))
  {
    QuotedIsPlain(e.code);
    QuotedIsPlain(e.message);
    FrameIsPlain();
    PlainTogether(Quoted(e.message) + [QUOTE], TAIL);
    PlainTogether(MIDDLE, Quoted(e.message) + [QUOTE] + TAIL);
    PlainTogether(Quoted(e.code) + [QUOTE], MIDDLE + (Quoted(e.message) + [QUOTE] + TAIL));
    PlainTogether(HEAD, Quoted(e.code) + [QUOTE] + (MIDDLE + (Quoted(e.message) + [QUOTE] + TAIL)));
  }

  lemma FrameIsPlain()
    ensures AllPlain(HEAD) && AllPlain(MIDDLE) && AllPlain(TAIL)
  {
  }

  lemma PlainTogether(a: string, b: string)
    requires AllPlain(a) && AllPlain(b)
    ensures AllPlain(a + b)
  {
  }

  lemma {:induction false} PlainIsUnquoted(s: string)
    requires AllPlain(s) && QUOTE !in s && BACKSLASH !in s
    ensures Quoted(s) == s
  {
    if s != "" {
      assert s[0] in s;
      PlainCharacter(s[0]);
      PlainIsUnquoted(s[1..]);
      HeadAndTail(s);
    }
  }

  lemma HeadAndTail(s: string)
    requires s != ""
    ensures [s[0]] + s[1..] == s
  {
  }

  lemma PlainCharacter(c: char)
    requires Plain(c) && c != QUOTE && c != BACKSLASH
    ensures Escaped(c) == [c]
  {
  }

  /** Text with nothing to escape travels as it is. */
  lemma PlainEnvelope(e: Envelope)
    requires AllPlain(e.code) && QUOTE !in e.code && BACKSLASH !in e.code
    requires AllPlain(e.message) && QUOTE !in e.message && BACKSLASH !in e.message
    ensures Marshal(e) == "{\"code\":\"" + e.code + "\",\"message\":\"" + e.message + "\"}"
  {
    PlainIsUnquoted(e.code);
    PlainIsUnquoted(e.message);
    SixParts(HEAD, e.code, [QUOTE], MIDDLE, e.message, [QUOTE] + TAIL);
    assert [QUOTE] + MIDDLE == "\",\"message\":\"" && [QUOTE] + TAIL == "\"}";
  }

  lemma SixParts(a: string, b: string, c: string, d: string, e: string, f: string)
    ensures a + (b + c + (d + (e + f))) == a + b + (c + d) + e + f
  {
  }

  /** A character beyond the basic plane may be spelled as its two surrogates. */
  lemma SurrogatesRead(c: char, rest: string)
    requires c as int >= 0x10000
    ensures var n := c as int - 0x10000;
            ReadEscape(['u'] + Hex4(0xD800 + n / 0x400) + [BACKSLASH, 'u'] + Hex4(0xDC00 + n % 0x400) + rest)
            == Some((c, 11))
  {
    var n := c as int - 0x10000;
    var high, low := 0xD800 + n / 0x400, 0xDC00 + n % 0x400;
    var tail := [BACKSLASH, 'u'] + Hex4(low) + rest;
    HexRoundTrip(high, tail);
    HexRoundTrip(low, rest);
    PairReads(Hex4(high), Hex4(low), rest, c);
  }

  lemma PairReads(first: string, second: string, rest: string, c: char)
    requires |first| == |second| == 4 && c as int >= 0x10000
    requires ReadHex4(first + ([BACKSLASH, 'u'] + second + rest)) == Some(0xD800 + (c as int - 0x10000) / 0x400)
    requires ReadHex4(second + rest) == Some(0xDC00 + (c as int - 0x10000) % 0x400)
    ensures ReadEscape(['u'] + first + [BACKSLASH, 'u'] + second + rest) == Some((c, 11))
  {
    var s := ['u'] + first + [BACKSLASH, 'u'] + second + rest;
    PairParts(first, second, rest);
  }

  lemma PairParts(first: string, second: string, rest: string)
    requires |first| == |second| == 4
    ensures var s := ['u'] + first + [BACKSLASH, 'u'] + second + rest;
            && |s| >= 11 && s[0] == 'u' && s[1..] == first + ([BACKSLASH, 'u'] + second + rest)
            && s[5] == BACKSLASH && s[6] == 'u' && s[7..] == second + rest
  {
  }

  // ---------------------------------------------------------------- cut texts do not

  predicate Cut(p: string, whole: string) { |p| < |whole| && p == whole[..|p|] }

  /** A cut text of two parts ends in one of them. */
  lemma CutInParts(p: string, first: string, second: string)
    requires Cut(p, first + second)
    ensures |p| < |first| ==> Cut(p, first)
    ensures |p| >= |first| ==> p == first + p[|first|..] && Cut(p[|first|..], second)
  {
  }

  lemma CutCharacter(p: string, c: char)
    requires Cut(p, Escaped(c))
    ensures ReadString(p).None?
  {
  }

  lemma {:induction false} CutString(p: string, m: string)
    requires Cut(p, Quoted(m) + [QUOTE])
    ensures ReadString(p).None?
    decreases |m|
  {
    if m == "" {
      assert Quoted(m) + [QUOTE] == [QUOTE];
    } else {
      var tail := Quoted(m[1..]) + [QUOTE];
      assert Quoted(m) + [QUOTE] == Escaped(m[0]) + tail;
      CutInParts(p, Escaped(m[0]), tail);
      if |p| < |Escaped(m[0])| {
        CutCharacter(p, m[0]);
      } else {
        CutString(p[|Escaped(m[0])|..], m[1..]);
        CharacterReadsBack(m[0], p[|Escaped(m[0])|..]);
      }
    }
  }

  /** A cut literal, or a whole one and a cut remainder. */
  lemma CutAfterString(p: string, m: string, after: string)
    requires Cut(p, Quoted(m) + [QUOTE] + after)
    ensures ReadString(p).None? || exists end :: ReadString(p) == Some((m, end)) && Cut(end, after)
  {
    var literal := Quoted(m) + [QUOTE];
    CutInParts(p, literal, after);
    if |p| < |literal| {
      CutString(p, m);
    } else {
      var end := p[|literal|..];
      StringReadsBack(m, end);
      assert ReadString(p) == Some((m, end)) && Cut(end, after);
    }
  }

  lemma CutAfterText(p: string, text: string, after: string)
    requires Cut(p, text + after)
    ensures Expect(p, text).None? || (Expect(p, text).Some? && Cut(Expect(p, text).value, after))
  {
  }

  /** No envelope can be read from a body that was cut off. */
  lemma CutEnvelope(p: string, e: Envelope)
    requires Cut(p, Marshal(e))
    ensures Unmarshal(p).None?
  {
    var message := Quoted(e.message) + [QUOTE] + TAIL;
    var middle := MIDDLE + message;
    var code := Quoted(e.code) + [QUOTE] + middle;
    CutAfterText(p, HEAD, code);
    if Expect(p, HEAD).Some? {
      var codeOn := Expect(p, HEAD).value;
      CutAfterString(codeOn, e.code, middle);
      if ReadString(codeOn).Some? {
        var middleOn := ReadString(codeOn).value.1;
        CutAfterText(middleOn, MIDDLE, message);
        if Expect(middleOn, MIDDLE).Some? {
          CutAfterString(Expect(middleOn, MIDDLE).value, e.message, TAIL);
        }
      }
    }
  }
}
