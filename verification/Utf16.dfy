/** lessUTF16: strings compared by their UTF-16 code units (section 3.2.3 of RFC 8785). */
module Utf16 {
  import opened Sorting

  /** The code units of one Unicode scalar value. */
  function CodeUnits(c: char): seq<int> {
    var r := c as int;
    if r < 0x10000 then [r]
    else [0xD800 + (r - 0x10000) / 0x400, 0xDC00 + (r - 0x10000) % 0x400]
  }

  function Encode(s: string): seq<int> {
    if s == [] then [] else CodeUnits(s[0]) + Encode(s[1..])
  }

  /** A character of the Basic Multilingual Plane is its own unit; any other is a high and a low surrogate that
      hold the upper and the lower ten bits of what is above the plane. */
  lemma CodeUnitsAreUtf16(c: char)
    ensures var r, units := c as int, CodeUnits(c);
      if r <= 0xFFFF then units == [r]
      else
        && |units| == 2 && 0xD800 <= units[0] <= 0xDBFF && 0xDC00 <= units[1] <= 0xDFFF
        && r == 0x10000 + (units[0] - 0xD800) * 0x400 + (units[1] - 0xDC00)
  {
  }

  /** Lexicographic order, a proper prefix first. */
  predicate LexLess(a: seq<int>, b: seq<int>) {
    if b == [] then false
    else if a == [] then true
    else if a[0] != b[0] then a[0] < b[0]
    else LexLess(a[1..], b[1..])
  }

  predicate Less(a: string, b: string) {
    LexLess(Encode(a), Encode(b))
  }

  lemma {:induction false} LexSkip(a: seq<int>, b: seq<int>, i: nat)
    requires i <= |a| && i <= |b| && a[..i] == b[..i]
    ensures LexLess(a, b) == LexLess(a[i..], b[i..])
  {
    if i > 0 {
      assert a[0] == a[..i][0] == b[..i][0] == b[0];
      assert a[1..][..i - 1] == a[..i][1..] == b[..i][1..] == b[1..][..i - 1];
      LexSkip(a[1..], b[1..], i - 1);
      assert a[1..][i - 1..] == a[i..] && b[1..][i - 1..] == b[i..];
    }
  }

  /** The source's loop: the first differing code unit decides, then the length. */
  method LessUTF16(a: string, b: string) returns (r: bool)
    ensures r == Less(a, b)
  {
    if a == b {
      LexTotal(Encode(a), Encode(b));
      return false;
    }
    var ua, ub := Encode(a), Encode(b);
    var i := 0;
    while i < |ua| && i < |ub|
      invariant 0 <= i <= |ua| && i <= |ub|
      invariant ua[..i] == ub[..i]
    {
      if ua[i] != ub[i] {
        LexSkip(ua, ub, i);
        return ua[i] < ub[i];
      }
      i := i + 1;
    }
    LexSkip(ua, ub, i);
    return |ua| < |ub|;
  }

  lemma {:induction false} LexTotal(a: seq<int>, b: seq<int>)
    ensures !(LexLess(a, b) && LexLess(b, a))
    ensures LexLess(a, b) || LexLess(b, a) <==> a != b
  {
    if a != [] && b != [] && a[0] == b[0] {
      LexTotal(a[1..], b[1..]);
      assert a == [a[0]] + a[1..] && b == [b[0]] + b[1..];
    }
  }

  lemma {:induction false} LexTransitive(a: seq<int>, b: seq<int>, c: seq<int>)
    requires LexLess(a, b) && LexLess(b, c)
    ensures LexLess(a, c)
  {
    if a != [] && a[0] == b[0] == c[0] {
      LexTransitive(a[1..], b[1..], c[1..]);
    }
  }

  lemma CodeUnitsPrefixFree(c: char, d: char, x: seq<int>, y: seq<int>)
    requires CodeUnits(c) + x == CodeUnits(d) + y
    ensures c == d && x == y
  {
    var l, r := CodeUnits(c) + x, CodeUnits(d) + y;
    assert l[0] == CodeUnits(c)[0] && r[0] == CodeUnits(d)[0];
    assert |CodeUnits(c)| == |CodeUnits(d)| by {
      // a lone unit is never in the high-surrogate range, the first unit of a pair always is
      assert |CodeUnits(c)| == 2 ==> 0xD800 <= l[0] < 0xDC00;
      assert |CodeUnits(d)| == 2 ==> 0xD800 <= r[0] < 0xDC00;
      assert |CodeUnits(c)| == 1 ==> !(0xD800 <= l[0] < 0xE000);
      assert |CodeUnits(d)| == 1 ==> !(0xD800 <= r[0] < 0xE000);
    }
    var n := |CodeUnits(c)|;
    assert CodeUnits(c) == l[..n] == r[..n] == CodeUnits(d);
    assert x == l[n..] == r[n..] == y;
    assert c as int == d as int;
  }

  lemma {:induction false} EncodeInjective(a: string, b: string)
    requires Encode(a) == Encode(b)
    ensures a == b
  {
    if a != [] && b != [] {
      CodeUnitsPrefixFree(a[0], b[0], Encode(a[1..]), Encode(b[1..]));
      EncodeInjective(a[1..], b[1..]);
      assert a == [a[0]] + a[1..] && b == [b[0]] + b[1..];
    }
  }

  /** Less is a strict total order on all strings. */
  lemma LessStrictTotal(a: string, b: string, c: string)
    ensures !(Less(a, b) && Less(b, a))
    ensures a != b <==> Less(a, b) || Less(b, a)
    ensures Less(a, b) && Less(b, c) ==> Less(a, c)
  {
    LexTotal(Encode(a), Encode(b));
    if Encode(a) == Encode(b) { EncodeInjective(a, b); }
    if Less(a, b) && Less(b, c) { LexTransitive(Encode(a), Encode(b), Encode(c)); }
  }

  lemma LessIsOrder()
    ensures StrictWeakOrder(Less)
    ensures forall x, y :: x != y ==> Less(x, y) || Less(y, x)
  {
    forall x, y, z
      ensures !Less(x, x)
      ensures Less(x, y) && Less(y, z) ==> Less(x, z)
      ensures Less(x, z) ==> Less(x, y) || Less(y, z)
      ensures x != y ==> Less(x, y) || Less(y, x)
    {
      LessStrictTotal(x, x, x);
      LessStrictTotal(x, y, z);
      LessStrictTotal(y, x, z);
      LessStrictTotal(y, z, x);
    }
  }
}
