/**
  The text check against its standard: the byte-by-byte check accepts exactly the sequences that
  section 3 of RFC 3629 gives for sequences of Unicode scalar values.
 */
module Utf8 {
  import opened Projection

  /** A code point that is not a surrogate. */
  predicate Scalar(c: int)
  {
    0 <= c < 0xd800 || 0xe000 <= c < 0x11_0000
  }

  function Tailing(c: int): char
    requires 0 <= c
  {
    (0x80 + c % 64) as char
  }

  function Encoding(c: int): string
    requires Scalar(c)
  {
    if c < 0x80 then [c as char]
    else if c < 0x800 then [(0xc0 + c / 64) as char, Tailing(c)]
    else if c < 0x1_0000 then [(0xe0 + c / 4096) as char, Tailing(c / 64), Tailing(c)]
    else [(0xf0 + c / 262144) as char, Tailing(c / 4096), Tailing(c / 64), Tailing(c)]
  }

  predicate Scalars(cs: seq<int>)
  {
    forall i | 0 <= i < |cs| :: Scalar(cs[i])
  }

  function Encodings(cs: seq<int>): string
    requires Scalars(cs)
  {
    if cs == [] then "" else Encoding(cs[0]) + Encodings(cs[1..])
  }

  predicate StartsWith(s: string, c: int)
  {
    Scalar(c) && Encoding(c) <= s
  }

  /** An encoding is recognized, with its length. */
  lemma {:induction false} EncodingIsRead(s: string, c: int)
    requires s != "" && StartsWith(s, c)
    ensures Utf8Length(s) == |Encoding(c)|
  {
    var e := Encoding(c);
    assert s[0] == e[0];
    if |e| > 1 { assert s[1] == e[1]; }
    if |e| > 2 { assert s[2] == e[2]; }
    if |e| > 3 { assert s[3] == e[3]; }
  }

  /** What is recognized is an encoding. */
  lemma {:induction false} ReadIsEncoding(s: string) returns (c: int)
    requires s != "" && Utf8Length(s) > 0
    ensures StartsWith(s, c) && |Encoding(c)| == Utf8Length(s)
  {
    var n := Utf8Length(s);
    if n == 1 {
      c := s[0] as int;
    } else if n == 2 {
      c := TwoBytes(s[0] as int, s[1] as int);
    } else if n == 3 {
      c := ThreeBytes(s[0] as int, s[1] as int, s[2] as int);
    } else {
      c := FourBytes(s[0] as int, s[1] as int, s[2] as int, s[3] as int);
    }
    assert s[..n] == Encoding(c);
  }

  lemma {:induction false} TwoBytes(a: int, b: int) returns (c: int)
    requires 0xc2 <= a <= 0xdf && 0x80 <= b <= 0xbf
    ensures 0x80 <= c < 0x800 && Encoding(c) == [a as char, b as char]
  {
    c := (a - 0xc0) * 64 + (b - 0x80);
  }

  lemma {:induction false} ThreeBytes(a: int, b: int, d: int) returns (c: int)
    requires 0xe0 <= a <= 0xef && 0x80 <= b <= 0xbf && 0x80 <= d <= 0xbf
    requires (a == 0xe0 ==> 0xa0 <= b) && (a == 0xed ==> b <= 0x9f)
    ensures 0x800 <= c < 0x1_0000 && Scalar(c) && Encoding(c) == [a as char, b as char, d as char]
  {
    c := (a - 0xe0) * 4096 + (b - 0x80) * 64 + (d - 0x80);
    assert c / 64 == (a - 0xe0) * 64 + (b - 0x80);
  }

  lemma {:induction false} FourBytes(a: int, b: int, d: int, e: int) returns (c: int)
    requires 0xf0 <= a <= 0xf4 && 0x80 <= b <= 0xbf && 0x80 <= d <= 0xbf && 0x80 <= e <= 0xbf
    requires (a == 0xf0 ==> 0x90 <= b) && (a == 0xf4 ==> b <= 0x8f)
    ensures 0x1_0000 <= c < 0x11_0000 && Encoding(c) == [a as char, b as char, d as char, e as char]
  {
    c := (a - 0xf0) * 262144 + (b - 0x80) * 4096 + (d - 0x80) * 64 + (e - 0x80);
    assert c / 64 == (a - 0xf0) * 4096 + (b - 0x80) * 64 + (d - 0x80);
    assert c / 4096 == (a - 0xf0) * 64 + (b - 0x80);
  }

  lemma {:induction false} EncodedIsValid(cs: seq<int>)
    requires Scalars(cs)
    ensures ValidUtf8(Encodings(cs))
  {
    if cs != [] {
      var s, rest := Encodings(cs), Encodings(cs[1..]);
      EncodedIsValid(cs[1..]);
      EncodingIsRead(s, cs[0]);
      assert s[|Encoding(cs[0])|..] == rest;
    }
  }

  lemma {:induction false} ValidIsEncoded(s: string) returns (cs: seq<int>)
    requires ValidUtf8(s)
    ensures Scalars(cs) && Encodings(cs) == s
  {
    if s == "" {
      cs := [];
    } else {
      var c := ReadIsEncoding(s);
      var rest := ValidIsEncoded(s[Utf8Length(s)..]);
      cs := [c] + rest;
      assert cs[1..] == rest;
      assert s == Encoding(c) + s[|Encoding(c)|..];
    }
  }

  /** Text is accepted exactly when it is the encoding of Unicode scalar values, none of them U+0000. */
  lemma {:induction false} TextExactly(s: string)
    ensures ValidText(s) <==> '\0' !in s && exists cs: seq<int> :: Scalars(cs) && Encodings(cs) == s
  {
    if ValidUtf8(s) { var _ := ValidIsEncoded(s); }
    if cs: seq<int> :| Scalars(cs) && Encodings(cs) == s { EncodedIsValid(cs); }
  }
}
