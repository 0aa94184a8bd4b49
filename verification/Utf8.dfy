/** UTF-8 as defined in section 3 of RFC 3629, on valid Unicode scalar values
  * (Dafny's `char`), and the two facts the MO writer relies on: encoding is
  * invertible, and byte order is code point order (section 1 of RFC 3629). */
module Utf8 {
  import opened Wrappers

  type byte = b: int | 0 <= b < 256

  function EncodeChar(c: char): (e: seq<byte>)
    ensures 1 <= |e| <= 4
  {
    var v := c as int;
    if v < 0x80 then [v]
    else if v < 0x800 then [0xC0 + v / 64, 0x80 + v % 64]
    else if v < 0x10000 then [0xE0 + v / 4096, 0x80 + v / 64 % 64, 0x80 + v % 64]
    else [0xF0 + v / 262144, 0x80 + v / 4096 % 64, 0x80 + v / 64 % 64, 0x80 + v % 64]
  }

  function Encode(s: string): seq<byte> {
    if s == [] then [] else EncodeChar(s[0]) + Encode(s[1..])
  }

  // ----------------------------------------------------------------------
  // Decoding
  // ----------------------------------------------------------------------

  predicate Continues(bs: seq<byte>, n: nat) {
    n < |bs| && forall k :: 1 <= k <= n ==> 0x80 <= bs[k] < 0xC0
  }

  predicate Scalar(v: int) {
    0 <= v < 0xD800 || 0xE000 <= v < 0x110000
  }

  /** The first character of `bs` and the number of bytes it takes. */
  function DecodeChar(bs: seq<byte>): (r: Option<(char, nat)>)
    ensures r.Some? ==> 0 < r.value.1 <= |bs|
  {
    if bs == [] then None
    else
      var lead: int := bs[0];
      if lead < 0x80 then Some((lead as char, 1))
      else if 0xC0 <= lead < 0xE0 && Continues(bs, 1) then
        Checked((lead - 0xC0) * 64 + Low(bs[1]), 0x80, 2)
      else if 0xE0 <= lead < 0xF0 && Continues(bs, 2) then
        Checked((lead - 0xE0) * 4096 + Low(bs[1]) * 64 + Low(bs[2]), 0x800, 3)
      else if 0xF0 <= lead < 0xF8 && Continues(bs, 3) then
        Checked((lead - 0xF0) * 262144 + Low(bs[1]) * 4096 + Low(bs[2]) * 64 + Low(bs[3]), 0x10000, 4)
      else None
  }

  function Low(b: int): int { b - 0x80 }

  /** Overlong forms, surrogates and values past the last code point are not UTF-8. */
  function Checked(v: int, least: int, n: nat): (r: Option<(char, nat)>)
    ensures r.Some? ==> r.value.1 == n && r.value.0 as int == v
  {
    if v >= least && Scalar(v) then Some((v as char, n)) else None
  }

  function Decode(bs: seq<byte>): Option<string>
    decreases |bs|
  {
    if bs == [] then Some("")
    else
      var first := DecodeChar(bs);
      if first.None? then None
      else
        var rest := Decode(bs[first.value.1..]);
        if rest.None? then None else Some([first.value.0] + rest.value)
  }

  /** The value the bytes of a sequence stand for. */
  function Value(e: seq<byte>): int
    requires 1 <= |e| <= 4
  {
    var lead: int := e[0];
    if |e| == 1 then lead
    else if |e| == 2 then (lead - 0xC0) * 64 + Low(e[1])
    else if |e| == 3 then (lead - 0xE0) * 4096 + Low(e[1]) * 64 + Low(e[2])
    else (lead - 0xF0) * 262144 + Low(e[1]) * 4096 + Low(e[2]) * 64 + Low(e[3])
  }

  lemma EncodedValue(c: char)
    ensures Value(EncodeChar(c)) == c as int
    ensures forall k :: 1 <= k < |EncodeChar(c)| ==> 0 <= Low(EncodeChar(c)[k]) < 64
  {
    Digits64(c as int);
  }

  lemma Digits64(v: int)
    requires 0 <= v
    ensures v == v / 262144 * 262144 + v / 4096 % 64 * 4096 + v / 64 % 64 * 64 + v % 64
    ensures v / 4096 == v / 262144 * 64 + v / 4096 % 64 && v / 64 == v / 4096 * 64 + v / 64 % 64
  {
    Split(v, 64);
    Split(v / 64, 64);
    Split(v / 4096, 64);
    assert v / 64 / 64 == v / 4096 && v / 4096 / 64 == v / 262144;
  }

  lemma Split(v: int, base: int)
    requires 0 <= v && 0 < base
    ensures v == v / base * base + v % base
  {
  }

  lemma DecodeEncodedChar(c: char, rest: seq<byte>)
    ensures DecodeChar(EncodeChar(c) + rest) == Some((c, |EncodeChar(c)|))
  {
    var v, e := c as int, EncodeChar(c);
    var bs := e + rest;
    EncodedValue(c);
    assert forall k :: 0 <= k < |e| ==> bs[k] == e[k];
    if 0x80 <= v < 0x800 {
      assert Continues(bs, 1);
    } else if 0x800 <= v < 0x10000 {
      assert Continues(bs, 2);
    } else if 0x10000 <= v {
      assert Continues(bs, 3);
    }
  }

  /** Decoding what was encoded gives the text back. */
  lemma {:induction false} DecodeEncoded(s: string)
    ensures Decode(Encode(s)) == Some(s)
  {
    if s != [] {
      var e, rest := EncodeChar(s[0]), Encode(s[1..]);
      DecodeEncodedChar(s[0], rest);
      assert (e + rest)[|e|..] == rest;
      DecodeEncoded(s[1..]);
      assert [s[0]] + s[1..] == s;
    }
  }

  // ----------------------------------------------------------------------
  // Order
  // ----------------------------------------------------------------------

  /** Lexicographic order, on code points or on bytes. */
  predicate Less(a: seq<int>, b: seq<int>) {
    b != [] && (a == [] || a[0] < b[0] || (a[0] == b[0] && Less(a[1..], b[1..])))
  }

  function Codes(s: string): seq<int> {
    if s == [] then [] else [s[0] as int] + Codes(s[1..])
  }

  lemma {:induction false} LessTotal(a: seq<int>, b: seq<int>)
    ensures Less(a, b) || a == b || Less(b, a)
    ensures !(Less(a, b) && Less(b, a)) && !Less(a, a)
  {
    if a != [] {
      LessTotal(a[1..], a[1..]);
    }
    if a != [] && b != [] && a[0] == b[0] {
      LessTotal(a[1..], b[1..]);
      assert a == [a[0]] + a[1..] && b == [b[0]] + b[1..];
    }
  }

  lemma {:induction false} LessTransitive(a: seq<int>, b: seq<int>, c: seq<int>)
    requires Less(a, b) && Less(b, c)
    ensures Less(a, c)
  {
    if a != [] && a[0] == b[0] == c[0] {
      LessTransitive(a[1..], b[1..], c[1..]);
    }
  }

  lemma {:induction false} LessSamePrefix(p: seq<int>, a: seq<int>, b: seq<int>)
    ensures Less(p + a, p + b) == Less(a, b)
  {
    if p == [] {
      assert p + a == a && p + b == b;
    } else {
      assert (p + a)[1..] == p[1..] + a && (p + b)[1..] == p[1..] + b;
      LessSamePrefix(p[1..], a, b);
    }
  }

  /** Differing at position `k` after a common prefix decides the order. */
  lemma {:induction false} LessAt(a: seq<int>, b: seq<int>, k: nat)
    requires k < |a| && k < |b| && a[..k] == b[..k] && a[k] < b[k]
    ensures Less(a, b)
  {
    if k > 0 {
      assert a[0] == a[..k][0] == b[..k][0] == b[0];
      assert a[1..][..k - 1] == a[..k][1..] == b[..k][1..] == b[1..][..k - 1];
      LessAt(a[1..], b[1..], k - 1);
    }
  }

  /** Encodings of different characters differ before either ends, in code point order. */
  lemma CharOrder(c: char, d: char, x: seq<byte>, y: seq<byte>)
    requires c < d
    ensures Less(EncodeChar(c) + x, EncodeChar(d) + y)
  {
    var e, f := EncodeChar(c), EncodeChar(d);
    var k := FirstDifference(c, d);
    var a, b := e + x, f + y;
    assert a[..k] == e[..k] && b[..k] == f[..k] && a[k] == e[k] && b[k] == f[k];
    LessAt(a, b, k);
  }

  lemma FirstDifference(c: char, d: char) returns (k: nat)
    requires c < d
    ensures k < |EncodeChar(c)| && k < |EncodeChar(d)|
    ensures EncodeChar(c)[..k] == EncodeChar(d)[..k] && EncodeChar(c)[k] < EncodeChar(d)[k]
  {
    var e, f := EncodeChar(c), EncodeChar(d);
    k := 0;
    while e[k] == f[k]
      invariant k < |e| && k < |f|
      invariant forall j :: 0 <= j < k ==> e[j] == f[j]
      invariant |e| == |f| || k == 0
      decreases |e| - k
    {
      SameLeadSameLength(c, d);
      NotAllEqual(c, d, k);
      k := k + 1;
    }
    DifferenceOrder(c, d, k);
  }

  lemma SameLeadSameLength(c: char, d: char)
    requires EncodeChar(c)[0] == EncodeChar(d)[0]
    ensures |EncodeChar(c)| == |EncodeChar(d)|
  {
  }

  lemma NotAllEqual(c: char, d: char, k: nat)
    requires c != d && |EncodeChar(c)| == |EncodeChar(d)| && k < |EncodeChar(c)|
    requires forall j :: 0 <= j <= k ==> EncodeChar(c)[j] == EncodeChar(d)[j]
    ensures k + 1 < |EncodeChar(c)|
  {
    if k + 1 == |EncodeChar(c)| {
      assert EncodeChar(c) == EncodeChar(d);
      DecodeEncodedChar(c, []);
      DecodeEncodedChar(d, []);
      assert false;
    }
  }

  lemma DifferenceOrder(c: char, d: char, k: nat)
    requires c < d && k < |EncodeChar(c)| && k < |EncodeChar(d)|
    requires forall j :: 0 <= j < k ==> EncodeChar(c)[j] == EncodeChar(d)[j]
    requires EncodeChar(c)[k] != EncodeChar(d)[k]
    ensures EncodeChar(c)[k] < EncodeChar(d)[k]
  {
    if k > 0 {
      SameLeadSameLength(c, d);
      EncodedValue(c);
      EncodedValue(d);
      DigitOrder(EncodeChar(c), EncodeChar(d), k);
    }
  }

  lemma DigitOrder(e: seq<byte>, f: seq<byte>, k: nat)
    requires 2 <= |e| == |f| <= 4 && 1 <= k < |e| && Value(e) < Value(f)
    requires forall j :: 1 <= j < |e| ==> 0 <= Low(e[j]) < 64 && 0 <= Low(f[j]) < 64
    requires forall j :: 0 <= j < k ==> e[j] == f[j]
    ensures e[k] <= f[k]
  {
  }

  /** Byte order of encodings is code point order of texts. */
  lemma {:induction false} EncodeOrder(s: string, t: string)
    ensures Less(Encode(s), Encode(t)) == Less(Codes(s), Codes(t))
  {
    if s != [] && t != [] {
      if s[0] == t[0] {
        LessSamePrefix(EncodeChar(s[0]), Encode(s[1..]), Encode(t[1..]));
        EncodeOrder(s[1..], t[1..]);
      } else if s[0] < t[0] {
        CharOrder(s[0], t[0], Encode(s[1..]), Encode(t[1..]));
      } else {
        CharOrder(t[0], s[0], Encode(t[1..]), Encode(s[1..]));
        LessTotal(Encode(s), Encode(t));
      }
    }
  }
}
