/**
 * Signed cursors: a payload and its signature, both in the URL-safe base64 alphabet of section 5 of
 * RFC 4648 without padding, joined by a dot.
 */
module Cursor {
  import opened Domain

  type Digit = x: int | 0 <= x < 64

  const MAX_PAYLOAD := 8192
  const SIGNATURE := 32
  const TTL: Time := 60 * MINUTE
  const SKEW: Time := MINUTE

  function Seconds(now: Time): int { now / SECOND }

  /** A cursor issued at this second can be used now. */
  predicate Live(issuedAt: int, now: Time) {
    issuedAt * SECOND <= now + SKEW && now - TTL <= issuedAt * SECOND
  }

  /** From a minute before the issue second until an hour after it. */
  lemma {:induction false} LiveIff(issuedAt: int, now: Time)
    ensures Live(issuedAt, now) <==> (issuedAt - 60) * SECOND <= now <= (issuedAt + 3600) * SECOND
  {
  }

  /** The issue second is written once and kept by every later cursor. */
  function Stamp(issuedAt: int, now: Time): int {
    if issuedAt == 0 then Seconds(now) else issuedAt
  }

  // The alphabet.

  function Char(d: Digit): char {
    if d < 26 then 'A' + d as char
    else if d < 52 then 'a' + (d - 26) as char
    else if d < 62 then '0' + (d - 52) as char
    else if d == 62 then '-' else '_'
  }

  function Value(c: char): Option<Digit> {
    if 'A' <= c <= 'Z' then Some(c as int - 'A' as int)
    else if 'a' <= c <= 'z' then Some(c as int - 'a' as int + 26)
    else if '0' <= c <= '9' then Some(c as int - '0' as int + 52)
    else if c == '-' then Some(62)
    else if c == '_' then Some(63)
    else None
  }

  /** The digits of an encoding: four for three bytes, two or three for the rest. */
  function Split(bytes: seq<Byte>): seq<Digit> {
    if |bytes| == 0 then []
    else if |bytes| == 1 then Digits4(bytes[0], 0, 0)[..2]
    else if |bytes| == 2 then Digits4(bytes[0], bytes[1], 0)[..3]
    else Digits4(bytes[0], bytes[1], bytes[2]) + Split(bytes[3..])
  }

  /** Four digits out of three bytes. */
  function Digits4(x: Byte, y: Byte, z: Byte): (r: seq<Digit>)
    ensures |r| == 4
  {
    [x / 4, x % 4 * 16 + y / 16, y % 16 * 4 + z / 64, z % 64]
  }

  function Chars(digits: seq<Digit>): string {
    seq(|digits|, i requires 0 <= i < |digits| => Char(digits[i]))
  }

  /** The URL-safe alphabet, table 2 in section 5 of RFC 4648. */
  lemma {:induction false} Alphabet()
    ensures "ABCDEFGHIJKLMNOPQRSTUVWXYZabcdefghijklmnopqrstuvwxyz0123456789-_" == [
      Char(0), Char(1), Char(2), Char(3), Char(4), Char(5), Char(6), Char(7), Char(8), Char(9),
      Char(10), Char(11), Char(12), Char(13), Char(14), Char(15), Char(16), Char(17), Char(18), Char(19),
      Char(20), Char(21), Char(22), Char(23), Char(24), Char(25), Char(26), Char(27), Char(28), Char(29),
      Char(30), Char(31), Char(32), Char(33), Char(34), Char(35), Char(36), Char(37), Char(38), Char(39),
      Char(40), Char(41), Char(42), Char(43), Char(44), Char(45), Char(46), Char(47), Char(48), Char(49),
      Char(50), Char(51), Char(52), Char(53), Char(54), Char(55), Char(56), Char(57), Char(58), Char(59),
      Char(60), Char(61), Char(62), Char(63)]
  {
  }

  /** The digits are the bits of the bytes, the first first; the bits that are missing at the end are zero. */
  lemma {:induction false} DigitsAreBigEndian(x: Byte, y: Byte, z: Byte)
    ensures var d := Split([x, y, z]);
            |d| == 4 && ((d[0] as int * 64 + d[1]) * 64 + d[2]) * 64 + d[3] == (x * 256 + y) * 256 + z
    ensures var d := Split([x, y]); |d| == 3 && (d[0] as int * 64 + d[1]) * 64 + d[2] == (x * 256 + y) * 4
    ensures var d := Split([x]); |d| == 2 && d[0] as int * 64 + d[1] == x * 16
  {
    assert [x, y, z][3..] == [];
  }

  lemma {:induction false} BytesOfDigits(x: Byte, y: Byte, z: Byte)
    ensures var d := Digits4(x, y, z); First(d[0], d[1]) == x && Second(d[1], d[2]) == y && Third(d[2], d[3]) == z
  {
  }

  lemma {:induction false} DigitsOfBytes(a: Digit, b: Digit, c: Digit, d: Digit)
    ensures Digits4(First(a, b), Second(b, c), Third(c, d)) == [a, b, c, d]
  {
    FirstSplits(a, b);
    SecondSplits(b, c);
    ThirdSplits(c, d);
  }

  lemma {:induction false} FirstSplits(a: Digit, b: Digit)
    ensures First(a, b) / 4 == a && First(a, b) % 4 * 16 + b % 16 == b
  {
    var h: nat := b / 16;
    assert h < 4 && First(a, b) == 4 * a + h;
  }

  lemma {:induction false} SecondSplits(b: Digit, c: Digit)
    ensures Second(b, c) / 16 == b % 16 && Second(b, c) % 16 * 4 + c % 4 == c
  {
    var l: nat, h: nat := b % 16, c / 4;
    assert l < 16 && h < 16 && Second(b, c) == 16 * l + h;
  }

  lemma {:induction false} ThirdSplits(c: Digit, d: Digit)
    ensures Third(c, d) / 64 == c % 4 && Third(c, d) % 64 == d
  {
    var l: nat := c % 4;
    assert Third(c, d) == 64 * l + d;
  }

  function Encode(bytes: seq<Byte>): string {
    Chars(Split(bytes))
  }

  /** The library decoder skips line ends anywhere and ignores left-over bits of the last digit. */
  function Decode(text: string): Option<seq<Byte>> {
    var digits := Digits(text);
    if digits.None? || |digits.value| % 4 == 1 then None else Some(Assemble(digits.value))
  }

  function Digits(text: string): Option<seq<Digit>> {
    if text == "" then Some([])
    else
      var before, last := Digits(text[..|text| - 1]), text[|text| - 1];
      if before.None? || last == '\n' || last == '\r' then before
      else if Value(last).None? then None
      else Some(before.value + [Value(last).value])
  }

  function Assemble(d: seq<Digit>): seq<Byte>
    requires |d| % 4 != 1
  {
    if |d| == 0 then []
    else if |d| == 2 then [First(d[0], d[1])]
    else if |d| == 3 then [First(d[0], d[1]), Second(d[1], d[2])]
    else [First(d[0], d[1]), Second(d[1], d[2]), Third(d[2], d[3])] + Assemble(d[4..])
  }

  // Three bytes out of four digits.

  function First(a: Digit, b: Digit): Byte { a * 4 + b / 16 }

  function Second(b: Digit, c: Digit): Byte { b % 16 * 16 + c / 4 }

  function Third(c: Digit, d: Digit): Byte { c % 4 * 64 + d }

  lemma {:induction false} CharValue(d: Digit)
    ensures Value(Char(d)) == Some(d)
  {
  }

  lemma {:induction false} ValueChar(c: char)
    requires Value(c).Some?
    ensures Char(Value(c).value) == c
  {
  }

  lemma {:induction false} SplitLength(bytes: seq<Byte>)
    ensures |Split(bytes)| == (4 * |bytes| + 2) / 3 && |Split(bytes)| % 4 != 1
  {
    if |bytes| >= 3 {
      SplitLength(bytes[3..]);
    }
  }

  lemma {:induction false} DigitsOfChars(digits: seq<Digit>)
    ensures Digits(Chars(digits)) == Some(digits)
  {
    if digits != [] {
      var before, last := digits[..|digits| - 1], digits[|digits| - 1];
      DigitsOfChars(before);
      assert Chars(digits)[..|digits| - 1] == Chars(before);
      CharValue(last);
      assert digits == before + [last];
    }
  }

  lemma {:induction false} AssembleSplitTail(bytes: seq<Byte>)
    requires |bytes| < 3
    ensures |Split(bytes)| % 4 != 1 && Assemble(Split(bytes)) == bytes
  {
  }

  lemma {:induction false} AssembleSplit(bytes: seq<Byte>)
    ensures |Split(bytes)| % 4 != 1 && Assemble(Split(bytes)) == bytes
  {
    SplitLength(bytes);
    if |bytes| < 3 {
      AssembleSplitTail(bytes);
    } else {
      var d := Digits4(bytes[0], bytes[1], bytes[2]);
      AssembleSplit(bytes[3..]);
      BytesOfDigits(bytes[0], bytes[1], bytes[2]);
      AssembleMore(d, Split(bytes[3..]));
      assert bytes == [bytes[0], bytes[1], bytes[2]] + bytes[3..];
    }
  }

  lemma {:induction false} AssembleMore(d: seq<Digit>, rest: seq<Digit>)
    requires |d| == 4 && |rest| % 4 != 1
    ensures |d + rest| % 4 != 1
    ensures Assemble(d + rest) == [First(d[0], d[1]), Second(d[1], d[2]), Third(d[2], d[3])] + Assemble(rest)
  {
    assert (d + rest)[4..] == rest;
    assert |d + rest| % 4 == |rest| % 4;
  }

  /** Decoding undoes encoding, for every byte string. */
  lemma {:induction false} Base64RoundTrip(bytes: seq<Byte>)
    ensures Decode(Encode(bytes)) == Some(bytes)
    ensures |Encode(bytes)| == (4 * |bytes| + 2) / 3
  {
    SplitLength(bytes);
    DigitsOfChars(Split(bytes));
    AssembleSplit(bytes);
  }

  /** The one text among those decoding to `bytes` that the encoder writes: no line ends, no left-over bits. */
  predicate Canonical(text: string) {
    && (forall i :: 0 <= i < |text| ==> Value(text[i]).Some?)
    && (|text| % 4 == 2 ==> Value(text[|text| - 1]).value % 16 == 0)
    && (|text| % 4 == 3 ==> Value(text[|text| - 1]).value % 4 == 0)
  }

  lemma {:induction false} DigitsAreChars(text: string)
    requires forall i :: 0 <= i < |text| ==> Value(text[i]).Some?
    ensures Digits(text).Some? && Chars(Digits(text).value) == text
  {
    if text != "" {
      var before := text[..|text| - 1];
      DigitsAreChars(before);
      ValueChar(text[|text| - 1]);
      assert text == before + [text[|text| - 1]];
    }
  }

  /** The bits of the last digit that belong to no byte are zero. */
  predicate NoSpareBits(d: seq<Digit>) {
    (|d| % 4 == 2 ==> d[|d| - 1] % 16 == 0) && (|d| % 4 == 3 ==> d[|d| - 1] % 4 == 0)
  }

  lemma {:induction false} SplitAssembleTail(d: seq<Digit>)
    requires |d| == 2 || |d| == 3
    requires NoSpareBits(d)
    ensures Split(Assemble(d)) == d
  {
    var c := if |d| == 3 then d[2] else 0;
    DigitsOfBytes(d[0], d[1], c, 0);
    assert Second(d[1], c) == 0 || |d| == 3;
    assert Third(c, 0) == 0;
  }

  lemma {:induction false} SplitAssemble(d: seq<Digit>)
    requires |d| % 4 != 1 && NoSpareBits(d)
    ensures Split(Assemble(d)) == d
  {
    if |d| >= 4 {
      assert |d[4..]| % 4 == |d| % 4;
      SplitAssemble(d[4..]);
      assert Assemble(d)[3..] == Assemble(d[4..]);
      DigitsOfBytes(d[0], d[1], d[2], d[3]);
      assert d == d[..4] + d[4..];
    } else if d != [] {
      SplitAssembleTail(d);
    }
  }

  lemma {:induction false} CharsCanonical(bytes: seq<Byte>)
    ensures Canonical(Encode(bytes))
  {
    SplitLength(bytes);
    var d := Split(bytes);
    forall i | 0 <= i < |d|
      ensures Value(Encode(bytes)[i]) == Some(d[i])
    {
      CharValue(d[i]);
    }
    SplitSparesNoBits(bytes);
  }

  lemma {:induction false} SplitSparesNoBits(bytes: seq<Byte>)
    ensures NoSpareBits(Split(bytes))
  {
    if |bytes| >= 3 {
      var d, rest := Split(bytes), Split(bytes[3..]);
      SplitSparesNoBits(bytes[3..]);
      assert |d| == 4 + |rest| && (rest != [] ==> d[|d| - 1] == rest[|rest| - 1]);
    }
  }

  /** Exactly one of the texts that decode to given bytes is canonical, and it is the encoder's. */
  lemma {:induction false} CanonicalIffEncoded(text: string)
    requires Decode(text).Some?
    ensures Canonical(text) <==> text == Encode(Decode(text).value)
  {
    var bytes := Decode(text).value;
    if Canonical(text) {
      DigitsAreChars(text);
      var d := Digits(text).value;
      assert |d| == |text|;
      if d != [] {
        assert text[|text| - 1] == Char(d[|d| - 1]);
        CharValue(d[|d| - 1]);
      }
      SplitAssemble(d);
      SplitLength(bytes);
    }
    if text == Encode(bytes) {
      CharsCanonical(bytes);
    }
  }

  // Payloads.

  /** The parts of a text between its dots. */
  function Parts(raw: string): seq<string>
    ensures |Parts(raw)| > 0
  {
    if raw == "" then [""]
    else
      var before, last := Parts(raw[..|raw| - 1]), raw[|raw| - 1];
      if last == '.' then before + [""]
      else before[..|before| - 1] + [before[|before| - 1] + [last]]
  }

  /** `sign` is the keyed digest of a payload. */
  function EncodePayload(sign: seq<Byte> -> seq<Byte>, payload: seq<Byte>): Answer<string> {
    if MAX_PAYLOAD < |payload| then Failed(InvalidInput)
    else Answered(Encode(payload) + "." + Encode(sign(payload)))
  }

  function DecodePayload(sign: seq<Byte> -> seq<Byte>, raw: string): Answer<seq<Byte>> {
    if |raw| == 0 || 2 * MAX_PAYLOAD < |raw| || |Parts(raw)| != 2 then Failed(InvalidInput)
    else
      var payload, signature := Decode(Parts(raw)[0]), Decode(Parts(raw)[1]);
      if payload.None? || |payload.value| == 0 || MAX_PAYLOAD < |payload.value| then Failed(InvalidInput)
      else if signature.None? || |signature.value| != SIGNATURE || signature.value != sign(payload.value)
      then Failed(InvalidInput)
      else Answered(payload.value)
  }

  predicate Dotless(text: string) {
    forall i :: 0 <= i < |text| ==> text[i] != '.'
  }

  lemma {:induction false} PartsOfDotless(text: string)
    requires Dotless(text)
    ensures Parts(text) == [text]
  {
    if text != "" {
      PartsOfDotless(text[..|text| - 1]);
      assert text == text[..|text| - 1] + [text[|text| - 1]];
    }
  }

  lemma {:induction false} PartsMore(raw: string, c: char)
    requires c != '.'
    ensures var p := Parts(raw); Parts(raw + [c]) == p[..|p| - 1] + [p[|p| - 1] + [c]]
  {
    assert (raw + [c])[..|raw|] == raw;
  }

  lemma {:induction false} PartsOfTwo(a: string, b: string)
    requires Dotless(a) && Dotless(b)
    ensures Parts(a + "." + b) == [a, b]
  {
    var raw := a + "." + b;
    if b == "" {
      assert raw[..|raw| - 1] == a;
      PartsOfDotless(a);
    } else {
      var b' := b[..|b| - 1];
      PartsOfTwo(a, b');
      PartsMore(a + "." + b', b[|b| - 1]);
      assert raw == a + "." + b' + [b[|b| - 1]];
      assert b == b' + [b[|b| - 1]];
    }
  }

  lemma {:induction false} JoinOfParts(raw: string)
    requires |Parts(raw)| == 2
    ensures Dotless(Parts(raw)[0]) && Dotless(Parts(raw)[1]) && raw == Parts(raw)[0] + "." + Parts(raw)[1]
  {
    var before := raw[..|raw| - 1];
    assert raw == before + [raw[|raw| - 1]];
    if raw[|raw| - 1] == '.' {
      OnePart(before);
    } else {
      JoinOfParts(before);
    }
  }

  lemma {:induction false} OnePart(raw: string)
    requires |Parts(raw)| == 1
    ensures Dotless(raw) && Parts(raw)[0] == raw
  {
    if raw != "" {
      OnePart(raw[..|raw| - 1]);
      assert raw == raw[..|raw| - 1] + [raw[|raw| - 1]];
    }
  }

  lemma {:induction false} EncodedIsDotless(bytes: seq<Byte>)
    ensures Dotless(Encode(bytes))
  {
  }

  /** A payload within the size limit comes back, unless it is empty; the text stays within its limit. */
  lemma {:induction false} PayloadRoundTrip(sign: seq<Byte> -> seq<Byte>, payload: seq<Byte>)
    requires |sign(payload)| == SIGNATURE
    ensures EncodePayload(sign, payload).Answered? <==> |payload| <= MAX_PAYLOAD
    ensures EncodePayload(sign, payload).Answered? ==>
              var raw := EncodePayload(sign, payload).value;
              && |raw| <= 2 * MAX_PAYLOAD
              && (DecodePayload(sign, raw) == Answered(payload) <==> payload != [])
  {
    if |payload| <= MAX_PAYLOAD {
      Base64RoundTrip(payload);
      Base64RoundTrip(sign(payload));
      EncodedIsDotless(payload);
      EncodedIsDotless(sign(payload));
      PartsOfTwo(Encode(payload), Encode(sign(payload)));
    }
  }

  /**
   * What decoding accepts, exactly: two dotless parts that decode to a payload of 1 to 8192 bytes and to its
   * own signature. Nothing is accepted without that signature.
   */
  lemma {:induction false} AcceptedIffSigned(sign: seq<Byte> -> seq<Byte>, raw: string, payload: seq<Byte>)
    ensures DecodePayload(sign, raw) == Answered(payload) <==>
            && 1 <= |payload| <= MAX_PAYLOAD && |raw| <= 2 * MAX_PAYLOAD && |sign(payload)| == SIGNATURE
            && exists a, b :: SignedAs(sign, raw, payload, a, b)
  {
    if DecodePayload(sign, raw) == Answered(payload) {
      JoinOfParts(raw);
      assert SignedAs(sign, raw, payload, Parts(raw)[0], Parts(raw)[1]);
    }
    if exists a, b :: SignedAs(sign, raw, payload, a, b) {
      var a, b :| SignedAs(sign, raw, payload, a, b);
      PartsOfTwo(a, b);
    }
  }

  predicate SignedAs(sign: seq<Byte> -> seq<Byte>, raw: string, payload: seq<Byte>, a: string, b: string) {
    && raw == a + "." + b && Dotless(a) && Dotless(b)
    && Decode(a) == Some(payload) && Decode(b) == Some(sign(payload))
  }

  /** Different texts can carry one payload: line ends are skipped. */
  lemma {:induction false} NotOnlyCanonicalTextsAreAccepted()
    ensures Decode("QQ") == Decode("Q\nQ") == Decode("QR") == Some([65])
  {
    DigitsMore("", 'Q');
    DigitsMore("Q", 'Q');
    DigitsMore("Q", '\n');
    DigitsMore("Q\n", 'Q');
    DigitsMore("Q", 'R');
    assert "" + ['Q'] == "Q" && "Q" + ['Q'] == "QQ" && "Q" + ['\n'] == "Q\n" && "Q\n" + ['Q'] == "Q\nQ" && "Q" + ['R'] == "QR";
  }

  lemma {:induction false} DigitsMore(text: string, c: char)
    requires Digits(text).Some?
    ensures Digits(text + [c])
         == if c == '\n' || c == '\r' then Digits(text)
            else if Value(c).None? then None else Some(Digits(text).value + [Value(c).value])
  {
    assert (text + [c])[..|text|] == text;
  }
}
