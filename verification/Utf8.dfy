// UTF-8 (section 3 of RFC 3629) and the byte-level trim of the SQL runner.
module Utf8 {
  import opened Text

  type byte = x: int | 0 <= x < 256

  function EncodeRune(c: char): (bytes: seq<byte>)
    ensures 1 <= |bytes| <= 4
  {
    var v := c as int;
    if v < 0x80 then [v]
    else if v < 0x800 then [0xC0 + v / 0x40, 0x80 + v % 0x40]
    else if v < 0x1_0000 then [0xE0 + v / 0x1000, 0x80 + v / 0x40 % 0x40, 0x80 + v % 0x40]
    else [0xF0 + v / 0x4_0000, 0x80 + v / 0x1000 % 0x40, 0x80 + v / 0x40 % 0x40, 0x80 + v % 0x40]
  }

  function Encode(s: string): seq<byte> {
    if s == "" then [] else EncodeRune(s[0]) + Encode(s[1..])
  }

  function EncodeAll(texts: seq<string>): seq<seq<byte>> {
    if texts == [] then [] else [Encode(texts[0])] + EncodeAll(texts[1..])
  }

  // One text, one encoding.
  lemma {:induction false} EncodeAllAt(texts: seq<string>, i: nat)
    requires i < |texts|
    ensures |EncodeAll(texts)| == |texts| && EncodeAll(texts)[i] == Encode(texts[i])
  {
    if |texts| > 1 {
      EncodeAllAt(texts[1..], if i > 0 then i - 1 else 0);
    }
  }

  lemma {:induction false} EncodeAllConcat(a: seq<string>, b: seq<string>)
    ensures EncodeAll(a + b) == EncodeAll(a) + EncodeAll(b)
  {
    if a == [] {
      assert a + b == b;
    } else {
      assert (a + b)[1..] == a[1..] + b;
      EncodeAllConcat(a[1..], b);
    }
  }

  // The scalar value whose encoding starts b, with the width of that encoding.
  function LeadValue(b: seq<int>): Option<(int, nat)> {
    if |b| >= 1 && b[0] < 0x80 then Some((b[0], 1))
    else if |b| >= 2 && 0xC0 <= b[0] < 0xE0 then Some(((b[0] - 0xC0) * 0x40 + b[1] - 0x80, 2))
    else if |b| >= 3 && 0xE0 <= b[0] < 0xF0 then
      Some(((b[0] - 0xE0) * 0x1000 + (b[1] - 0x80) * 0x40 + b[2] - 0x80, 3))
    else if |b| >= 4 && 0xF0 <= b[0] then
      Some(((b[0] - 0xF0) * 0x4_0000 + (b[1] - 0x80) * 0x1000 + (b[2] - 0x80) * 0x40 + b[3] - 0x80, 4))
    else None
  }

  function Decode(b: seq<byte>): Option<string> {
    if b == [] then Some("")
    else
      match LeadValue(b)
      case None => None
      case Some((v, w)) =>
        if !(0 <= v < 0xD800 || 0xE000 <= v < 0x11_0000) then None
        else if EncodeRune(v as char) != b[..w] then None
        else
          match Decode(b[w..])
          case None => None
          case Some(rest) => Some([v as char] + rest)
  }

  // The number ranges of section 3 of RFC 3629, and the bits that the bytes carry.
  lemma EncodedBits(c: char)
    ensures var b: seq<int>, v := EncodeRune(c), c as int;
            match |b|
            case 1 => v < 0x80 && b[0] == v
            case 2 => 0x80 <= v < 0x800 && v == (b[0] - 0xC0) * 0x40 + b[1] - 0x80
            case 3 => 0x800 <= v < 0x1_0000 && v == (b[0] - 0xE0) * 0x1000 + (b[1] - 0x80) * 0x40 + b[2] - 0x80
            case _ => 0x1_0000 <= v && |b| == 4 &&
                      v == (b[0] - 0xF0) * 0x4_0000 + (b[1] - 0x80) * 0x1000 + (b[2] - 0x80) * 0x40 + b[3] - 0x80
    ensures forall i :: 0 < i < |EncodeRune(c)| ==> 0x80 <= EncodeRune(c)[i] < 0xC0
  {
    var v := c as int;
    if 0x1_0000 <= v {
      assert v / 0x4_0000 * 0x40 + v / 0x1000 % 0x40 == v / 0x1000;
      assert v / 0x1000 * 0x40 + v / 0x40 % 0x40 == v / 0x40;
    } else if 0x800 <= v {
      assert v / 0x1000 * 0x40 + v / 0x40 % 0x40 == v / 0x40;
    }
  }

  lemma LeadValueOfRune(c: char, rest: seq<byte>)
    ensures LeadValue(EncodeRune(c) + rest) == Some((c as int, |EncodeRune(c)|))
  {
    var v := c as int;
    if 0x1_0000 <= v {
      assert v / 0x4_0000 * 0x40 + v / 0x1000 % 0x40 == v / 0x1000;
      assert v / 0x1000 * 0x40 + v / 0x40 % 0x40 == v / 0x40;
    } else if 0x800 <= v {
      assert v / 0x1000 * 0x40 + v / 0x40 % 0x40 == v / 0x40;
    }
  }

  // Encoding loses nothing, and nothing but an encoding is decoded.
  lemma {:induction false} DecodeEncode(s: string)
    ensures Decode(Encode(s)) == Some(s)
  {
    if s != "" {
      var head, rest := EncodeRune(s[0]), Encode(s[1..]);
      LeadValueOfRune(s[0], rest);
      assert (head + rest)[..|head|] == head && (head + rest)[|head|..] == rest;
      DecodeEncode(s[1..]);
      assert s == [s[0]] + s[1..];
    }
  }

  lemma EncodeFirst(c: char, rest: string)
    ensures Encode([c] + rest) == EncodeRune(c) + Encode(rest)
  {
    assert ([c] + rest)[1..] == rest;
  }

  lemma DecodeStep(b: seq<byte>) returns (c: char, w: nat)
    requires b != [] && Decode(b).Some?
    ensures 0 < w <= |b| && EncodeRune(c) == b[..w]
    ensures Decode(b[w..]).Some? && Decode(b).value == [c] + Decode(b[w..]).value
  {
    var (v, n) := LeadValue(b).value;
    c, w := v as char, n;
  }

  lemma {:induction false} EncodeDecode(b: seq<byte>)
    requires Decode(b).Some?
    ensures Encode(Decode(b).value) == b
  {
    if b != [] {
      var c, w := DecodeStep(b);
      EncodeDecode(b[w..]);
      EncodeFirst(c, Decode(b[w..]).value);
      assert b == b[..w] + b[w..];
    }
  }

  lemma {:induction false} EncodeConcat(a: string, b: string)
    ensures Encode(a + b) == Encode(a) + Encode(b)
  {
    if a == "" {
      assert a + b == b;
    } else {
      assert (a + b)[1..] == a[1..] + b;
      EncodeConcat(a[1..], b);
    }
  }

  predicate ByteSpace(b: byte) {
    b == 32 || b == 9 || b == 10 || b == 13 || b == 12 || b == 11
  }

  predicate RuneSpace(c: char) {
    c == ' ' || c == '\t' || c == '\n' || c == '\r' || c == '\U{0C}' || c == '\U{0B}'
  }

  lemma {:induction false} EncodeBlank(s: string)
    requires Blank(s, RuneSpace)
    ensures Blank(Encode(s), ByteSpace)
  {
    if s != "" {
      EncodeBlank(s[1..]);
    }
  }

  // Every byte of a rune other than a blank is itself not a blank.
  lemma EncodeRuneInk(c: char)
    requires !RuneSpace(c)
    ensures forall i :: 0 <= i < |EncodeRune(c)| ==> !ByteSpace(EncodeRune(c)[i])
  {
  }

  lemma EncodeInk(s: string)
    requires s != "" && !RuneSpace(s[0]) && !RuneSpace(s[|s| - 1])
    ensures Encode(s) != [] && !ByteSpace(Encode(s)[0]) && !ByteSpace(Encode(s)[|Encode(s)| - 1])
  {
    var last := s[|s| - 1];
    EncodeRuneInk(s[0]);
    EncodeRuneInk(last);
    EncodeConcat(s[..|s| - 1], [last]);
    assert s == s[..|s| - 1] + [last];
    assert Encode([last]) == EncodeRune(last);
  }

  // Trimming the bytes is trimming the runes: no multi-byte rune is ever cut.
  lemma TrimBytesIsTrimRunes(s: string)
    ensures Trim(Encode(s), ByteSpace) == Encode(Trim(s, RuneSpace))
    ensures Trim(Encode(s), ByteSpace) == [] <==> Trim(s, RuneSpace) == ""
  {
    var i, j := CoreExists(s, RuneSpace);
    var left, core, right := s[..i], s[i..j], s[j..];
    assert s == left + core + right;
    EncodeConcat(left + core, right);
    EncodeConcat(left, core);
    EncodeBlank(left);
    EncodeBlank(right);
    TrimPadded(Encode(left), Encode(core), Encode(right), ByteSpace);
    if core != "" {
      EncodeInk(core);
    }
    TrimFixed(Encode(core), ByteSpace);
  }

  // Tab, newline, vertical tab, form feed, carriage return and blank.
  predicate Padding(s: seq<byte>) {
    forall i :: 0 <= i < |s| ==> 9 <= s[i] <= 13 || s[i] == 32
  }

  // The in-place window loops of the SQL runner's trimSpace.
  method TrimSpace(s: seq<byte>) returns (r: seq<byte>)
    ensures r == Trim(s, ByteSpace)
    ensures exists i, j :: 0 <= i <= j <= |s| && r == s[i..j] && Padding(s[..i]) && Padding(s[j..])
    ensures r != [] ==> !(9 <= r[0] <= 13 || r[0] == 32) && !(9 <= r[|r| - 1] <= 13 || r[|r| - 1] == 32)
  {
    var start, end := 0, |s|;
    while start < end && ByteSpace(s[start])
      invariant 0 <= start <= end == |s|
      invariant Blank(s[..start], ByteSpace)
    {
      start := start + 1;
    }
    while end > start && ByteSpace(s[end - 1])
      invariant start <= end <= |s|
      invariant start < end ==> !ByteSpace(s[start])
      invariant Blank(s[end..], ByteSpace)
    {
      end := end - 1;
    }
    TrimIsCore(s, ByteSpace, start, end);
    r := s[start..end];
  }
}
