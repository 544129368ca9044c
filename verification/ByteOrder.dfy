// The order of file names, which the code compares byte by byte, is the order of their runes.
module ByteOrder {
  import opened Text
  import opened Utf8
  import opened PathOrder

  predicate ByteLe(a: seq<byte>, b: seq<byte>) {
    a == [] || (b != [] && (a[0] < b[0] || (a[0] == b[0] && ByteLe(a[1..], b[1..]))))
  }

  lemma {:induction false} ByteLeTail(p: seq<byte>, a: seq<byte>, b: seq<byte>)
    ensures ByteLe(p + a, p + b) == ByteLe(a, b)
  {
    if p == [] {
      assert p + a == a && p + b == b;
    } else {
      assert (p + a)[1..] == p[1..] + a && (p + b)[1..] == p[1..] + b;
      ByteLeTail(p[1..], a, b);
    }
  }

  lemma {:induction false} ByteLess(a: seq<byte>, b: seq<byte>, i: nat)
    requires i < |a| && i < |b| && a[..i] == b[..i] && a[i] < b[i]
    ensures ByteLe(a, b) && !ByteLe(b, a)
  {
    if i > 0 {
      assert a[0] == a[..i][0] && b[0] == b[..i][0];
      assert a[1..][..i - 1] == a[..i][1..] && b[1..][..i - 1] == b[..i][1..];
      ByteLess(a[1..], b[1..], i - 1);
    }
  }

  // Encodings of two runes first differ in the direction in which the runes do.
  lemma RuneLess(c: char, d: char) returns (i: nat)
    requires c < d
    ensures var x, y := EncodeRune(c), EncodeRune(d);
            i < |x| && i < |y| && x[..i] == y[..i] && x[i] < y[i]
  {
    if |EncodeRune(c)| == |EncodeRune(d)| {
      i := SameWidth(c, d);
    } else {
      WiderIsGreater(c, d);
      i := 0;
    }
  }

  lemma WiderIsGreater(c: char, d: char)
    requires c < d && |EncodeRune(c)| != |EncodeRune(d)|
    ensures EncodeRune(c)[0] < EncodeRune(d)[0]
  {
  }

  lemma SameWidth(c: char, d: char) returns (i: nat)
    requires c < d && |EncodeRune(c)| == |EncodeRune(d)|
    ensures var x, y := EncodeRune(c), EncodeRune(d);
            i < |x| && x[..i] == y[..i] && x[i] < y[i]
  {
    var x, y := EncodeRune(c), EncodeRune(d);
    var v, w := c as int, d as int;
    i := if x[0] != y[0] then 0
         else if |x| >= 2 && x[1] != y[1] then 1
         else if |x| >= 3 && x[2] != y[2] then 2
         else |x| - 1;
    Digits(v);
    Digits(w);
    Leads(v, w);
  }

  lemma Leads(v: nat, w: nat)
    requires v < w
    ensures v / 0x40 <= w / 0x40 && v / 0x1000 <= w / 0x1000 && v / 0x4_0000 <= w / 0x4_0000
  {
  }

  lemma Digits(v: nat)
    ensures v / 0x40 == v / 0x1000 * 0x40 + v / 0x40 % 0x40
    ensures v / 0x1000 == v / 0x4_0000 * 0x40 + v / 0x1000 % 0x40
  {
    assert v / 0x40 / 0x40 == v / 0x1000;
    assert v / 0x1000 / 0x40 == v / 0x4_0000;
  }

  // The order of the texts is the order of their bytes.
  lemma {:induction false} LeIsByteLe(a: string, b: string)
    ensures Le(a, b) <==> ByteLe(Encode(a), Encode(b))
  {
    if a != "" && b != "" {
      var x, y := EncodeRune(a[0]), EncodeRune(b[0]);
      if a[0] == b[0] {
        ByteLeTail(x, Encode(a[1..]), Encode(b[1..]));
        LeIsByteLe(a[1..], b[1..]);
      } else if a[0] < b[0] {
        var i := RuneLess(a[0], b[0]);
        SplitWithin(x, Encode(a[1..]), i);
        SplitWithin(y, Encode(b[1..]), i);
        ByteLess(Encode(a), Encode(b), i);
      } else {
        var i := RuneLess(b[0], a[0]);
        SplitWithin(x, Encode(a[1..]), i);
        SplitWithin(y, Encode(b[1..]), i);
        ByteLess(Encode(b), Encode(a), i);
      }
    }
  }
}
