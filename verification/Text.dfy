/** Strings as sequences of code points. */
module Text {
  import opened Domain

  predicate IsSpace(c: char) {
    || '\t' <= c <= '\r' || c == ' ' || c == '\U{0085}' || c == '\U{00A0}' || c == '\U{1680}'
    || '\U{2000}' <= c <= '\U{200A}' || c == '\U{2028}' || c == '\U{2029}' || c == '\U{202F}'
    || c == '\U{205F}' || c == '\U{3000}'
  }

  function Trim(s: string): string {
    if s != [] && IsSpace(s[0]) then Trim(s[1..])
    else if s != [] && IsSpace(s[|s| - 1]) then Trim(s[..|s| - 1])
    else s
  }

  predicate AllSpace(s: string) {
    forall i :: 0 <= i < |s| ==> IsSpace(s[i])
  }

  /** No space at either end. */
  predicate Tight(s: string) {
    s == [] || (!IsSpace(s[0]) && !IsSpace(s[|s| - 1]))
  }

  /** Trimming takes off the spaces at both ends and nothing else. */
  lemma {:induction false} TrimPadded(a: string, core: string, b: string)
    requires AllSpace(a) && Tight(core) && AllSpace(b)
    ensures Trim(a + core + b) == core
    decreases |a| + |b|
  {
    var s := a + core + b;
    if a != [] {
      assert s[1..] == a[1..] + core + b;
      TrimPadded(a[1..], core, b);
    } else if core == [] && b != [] {
      assert s == b && s[1..] == [] + core + b[1..];
      TrimPadded([], core, b[1..]);
    } else if b != [] {
      assert s[|s| - 1] == b[|b| - 1] && s[..|s| - 1] == [] + core + b[..|b| - 1];
      TrimPadded([], core, b[..|b| - 1]);
    } else {
      assert s == core;
    }
  }

  /** The encoding of a character in UTF-8, section 3 of RFC 3629. */
  function Utf8(c: char): seq<Byte> {
    var n := c as int;
    if n < 0x80 then [n]
    else if n < 0x800 then [0xC0 + n / 0x40, 0x80 + n % 0x40]
    else if n < 0x1_0000 then [0xE0 + n / 0x1000, 0x80 + n / 0x40 % 0x40, 0x80 + n % 0x40]
    else [0xF0 + n / 0x4_0000, 0x80 + n / 0x1000 % 0x40, 0x80 + n / 0x40 % 0x40, 0x80 + n % 0x40]
  }

  function Encoded(s: string): seq<Byte> {
    if s == [] then [] else Encoded(s[..|s| - 1]) + Utf8(s[|s| - 1])
  }

  lemma {:induction false} BytesAreUtf8(s: string)
    ensures Bytes(s) == |Encoded(s)|
  {
    if s != [] {
      BytesAreUtf8(s[..|s| - 1]);
    }
  }

  /** The length of a string in UTF-8. */
  function Bytes(s: string): nat {
    if s == [] then 0
    else Bytes(s[..|s| - 1]) + (var c := s[|s| - 1] as int;
                                if c < 0x80 then 1 else if c < 0x800 then 2 else if c < 0x1_0000 then 3 else 4)
  }

  /** A trimmed keyword has at most 100 characters. */
  predicate KeywordFits(keyword: string) {
    |keyword| <= 100
  }

  predicate Contains(text: string, part: string) {
    exists i | 0 <= i <= |text| :: HasAt(text, part, i)
  }

  predicate HasAt(text: string, part: string, i: nat)
    requires i <= |text|
  {
    part <= text[i..]
  }

  lemma {:induction false} ContainsIff(text: string, part: string)
    ensures Contains(text, part) <==> exists a, b :: text == a + part + b
  {
    if Contains(text, part) {
      var i :| 0 <= i <= |text| && HasAt(text, part, i);
      assert text == text[..i] + part + text[i + |part|..];
    }
    if a, b :| text == a + part + b {
      assert HasAt(text, part, |a|);
    }
  }
}
