/** UTF-8 as in section 3 of RFC 3629, with CPython's `errors="ignore"` decoding. */
module Utf8 {

  newtype Byte = x: int | 0 <= x < 256

  function Width(c: char): (n: nat)
    ensures 1 <= n <= 4
  {
    var k := c as int;
    if k < 0x80 then 1 else if k < 0x800 then 2 else if k < 0x1_0000 then 3 else 4
  }

  function EncodeChar(c: char): (bs: seq<Byte>)
    ensures |bs| == Width(c)
  {
    var k := c as int;
    if k < 0x80 then [k as Byte]
    else if k < 0x800 then [(0xC0 + k / 64) as Byte, (0x80 + k % 64) as Byte]
    else if k < 0x1_0000 then
      [(0xE0 + k / 4096) as Byte, (0x80 + k / 64 % 64) as Byte, (0x80 + k % 64) as Byte]
    else
      [(0xF0 + k / 262144) as Byte, (0x80 + k / 4096 % 64) as Byte,
       (0x80 + k / 64 % 64) as Byte, (0x80 + k % 64) as Byte]
  }

  /** Characters of one to four bytes. */
  lemma Examples()
    ensures EncodeChar('A') == [0x41] && EncodeChar('\U{E9}') == [0xC3, 0xA9]
    ensures EncodeChar('\U{20AC}') == [0xE2, 0x82, 0xAC] && EncodeChar('\U{10348}') == [0xF0, 0x90, 0x8D, 0x88]
  {}

  function Encode(s: string): (bs: seq<Byte>) {
    if s == "" then [] else EncodeChar(s[0]) + Encode(s[1..])
  }

  predicate Cont(b: Byte) { 0x80 <= b < 0xC0 }

  /** Bytes a sequence announced by lead byte `b` must have; 0 when `b` cannot lead. */
  function Announced(b: Byte): (n: nat)
    ensures n <= 4
  {
    if b < 0x80 then 1 else if 0xC2 <= b < 0xE0 then 2 else if 0xE0 <= b < 0xF0 then 3
    else if 0xF0 <= b < 0xF5 then 4 else 0
  }

  /** Second bytes that avoid overlong forms, surrogates and values above U+10FFFF. */
  predicate SecondOk(lead: Byte, b: Byte) {
    && Cont(b)
    && (lead == 0xE0 ==> b >= 0xA0) && (lead == 0xED ==> b < 0xA0)
    && (lead == 0xF0 ==> b >= 0x90) && (lead == 0xF4 ==> b < 0x90)
  }

  /** How many bytes at the front could still be a well-formed sequence: the whole sequence when
      complete, else the part an error handler skips (at least one byte). */
  function GoodRun(bs: seq<Byte>): (n: nat)
    requires bs != []
    ensures 1 <= n <= |bs|
  {
    var want := Announced(bs[0]);
    if want < 2 || |bs| < 2 || !SecondOk(bs[0], bs[1]) then 1
    else if want < 3 || |bs| < 3 || !Cont(bs[2]) then 2
    else if want < 4 || |bs| < 4 || !Cont(bs[3]) then 3
    else 4
  }

  function Low(b: Byte): (n: nat)
    requires Cont(b)
    ensures n < 64
  {
    (b - 0x80) as nat
  }

  /** The scalar value of a complete sequence. */
  function Assemble(bs: seq<Byte>): (k: int)
    requires bs != [] && GoodRun(bs) == Announced(bs[0])
    ensures 0 <= k < 0xD800 || 0xE000 <= k < 0x11_0000
  {
    var b0 := bs[0] as int;
    match Announced(bs[0])
    case 1 => b0
    case 2 => (b0 - 0xC0) * 64 + Low(bs[1])
    case 3 => (b0 - 0xE0) * 4096 + Low(bs[1]) * 64 + Low(bs[2])
    case _ => (b0 - 0xF0) * 262144 + Low(bs[1]) * 4096 + Low(bs[2]) * 64 + Low(bs[3])
  }

  /** `bs.decode("utf-8", errors="ignore")`. */
  function DecodeIgnore(bs: seq<Byte>): (s: string)
    decreases |bs|
  {
    if bs == [] then ""
    else
      var n := GoodRun(bs);
      (if n == Announced(bs[0]) then [Assemble(bs) as char] else "") + DecodeIgnore(bs[n..])
  }

  // ----- round trip

  lemma SixBits(k: nat)
    ensures k == k / 64 * 64 + k % 64
    ensures k == k / 4096 * 4096 + k / 64 % 64 * 64 + k % 64
    ensures k == k / 262144 * 262144 + k / 4096 % 64 * 4096 + k / 64 % 64 * 64 + k % 64
  {
    assert k / 4096 == k / 64 / 64 && k / 262144 == k / 4096 / 64;
  }

  lemma WideCharDecodes(c: char, bs: seq<Byte>)
    requires c as int >= 0x80 && EncodeChar(c) <= bs
    ensures Announced(bs[0]) == Width(c) && SecondOk(bs[0], bs[1])
    ensures Width(c) > 2 ==> Cont(bs[2])
    ensures Width(c) > 3 ==> Cont(bs[3])
  {
    var k := c as int;
    assert k < 0xD800 || 0xE000 <= k < 0x11_0000;
    var e := EncodeChar(c);
    assert forall i :: 0 <= i < |e| ==> bs[i] == e[i];
    SixBits(k);
  }

  lemma EncodedCharDecodes(c: char, bs: seq<Byte>)
    requires EncodeChar(c) <= bs
    ensures Announced(bs[0]) == Width(c)
    ensures GoodRun(bs) == Width(c)
    ensures Assemble(bs) == c as int
  {
    var k := c as int;
    var e := EncodeChar(c);
    assert forall i :: 0 <= i < |e| ==> bs[i] == e[i];
    if k >= 0x80 {
      WideCharDecodes(c, bs);
      SixBits(k);
    }
  }

  lemma DecodeOne(c: char, rest: seq<Byte>)
    ensures DecodeIgnore(EncodeChar(c) + rest) == [c] + DecodeIgnore(rest)
  {
    var bs := EncodeChar(c) + rest;
    EncodedCharDecodes(c, bs);
    assert bs[Width(c)..] == rest;
  }

  /** A sequence cut short decodes to nothing. */
  lemma DecodeCut(c: char, n: nat)
    requires n < Width(c)
    ensures DecodeIgnore(EncodeChar(c)[..n]) == ""
  {
    var cut := EncodeChar(c)[..n];
    if n > 0 {
      EncodedCharDecodes(c, EncodeChar(c));
      assert GoodRun(cut) == n;
      assert cut[n..] == [];
    }
  }

  lemma {:induction false} RoundTrip(s: string)
    ensures DecodeIgnore(Encode(s)) == s
  {
    if s != "" {
      RoundTrip(s[1..]);
      DecodeOne(s[0], Encode(s[1..]));
    }
  }

  // ----- truncation

  /** Bytes a string takes. */
  function Size(s: string): (n: nat) { |Encode(s)| }

  lemma {:induction false} SizeBounds(s: string)
    ensures |s| <= Size(s) <= 4 * |s|
  {
    if s != "" { SizeBounds(s[1..]); }
  }

  lemma {:induction false} SizeConcat(s: string, t: string)
    ensures Size(s + t) == Size(s) + Size(t)
  {
    if s == "" {
      assert s + t == t;
    } else {
      SizeConcat(s[1..], t);
      assert (s + t)[1..] == s[1..] + t;
    }
  }

  /** `p` is the longest prefix of `s` taking at most `limit` bytes. */
  ghost predicate LongestFitting(p: string, s: string, limit: nat) {
    && p <= s && Size(p) <= limit
    && (p != s ==> Size(s[..|p| + 1]) > limit)
  }

  lemma SizeOfOne(c: char)
    ensures Size([c]) == Width(c)
  {
    assert [c][1..] == "" && Encode("") == [];
  }

  lemma LongestGrows(c: char, q: string, rest: string, limit: nat)
    requires LongestFitting(q, rest, limit)
    ensures LongestFitting([c] + q, [c] + rest, limit + Width(c))
    ensures Size([c] + q) == Width(c) + Size(q)
  {
    SizeOfOne(c);
    SizeConcat([c], q);
    if q != rest {
      SizeConcat([c], rest[..|q| + 1]);
      assert ([c] + rest)[..|[c] + q| + 1] == [c] + rest[..|q| + 1];
    }
  }

  lemma NothingFits(s: string, limit: nat)
    requires s != "" && limit < Width(s[0])
    ensures LongestFitting("", s, limit) && Size("") == 0
  {
    SizeOfOne(s[0]);
    assert s[..1] == [s[0]];
  }

  /** Cutting the bytes anywhere and decoding with errors ignored keeps exactly the longest prefix
      of whole code points that fits, and wastes at most three bytes. */
  lemma {:induction false} CutKeepsLongestPrefix(s: string, limit: nat)
    requires limit <= Size(s)
    ensures LongestFitting(DecodeIgnore(Encode(s)[..limit]), s, limit)
    ensures limit - Size(DecodeIgnore(Encode(s)[..limit])) <= 3
  {
    if s == "" {
    } else {
      var c, rest := s[0], s[1..];
      assert s == [c] + rest;
      if limit < Width(c) {
        assert Encode(s)[..limit] == EncodeChar(c)[..limit];
        DecodeCut(c, limit);
        NothingFits(s, limit);
      } else {
        var left := limit - Width(c);
        CutKeepsLongestPrefix(rest, left);
        assert Encode(s)[..limit] == EncodeChar(c) + Encode(rest)[..left];
        DecodeOne(c, Encode(rest)[..left]);
        LongestGrows(c, DecodeIgnore(Encode(rest)[..left]), rest, left);
      }
    }
  }

  /** No longer prefix fits than the longest one. */
  lemma LongestIsMaximal(p: string, s: string, limit: nat, k: nat)
    requires LongestFitting(p, s, limit) && k <= |s|
    ensures Size(s[..k]) <= limit <==> k <= |p|
  {
    if k <= |p| {
      SizeConcat(s[..k], p[k..]);
      assert s[..k] + p[k..] == p;
    } else {
      SizeConcat(s[..|p| + 1], s[|p| + 1..k]);
      assert s[..|p| + 1] + s[|p| + 1..k] == s[..k];
    }
  }
}
