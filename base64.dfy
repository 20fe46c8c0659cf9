/** Base64 as the token code uses it: Node's `Buffer.toString("base64")`
    (RFC 4648 section 4, with '=' padding), the `base64url` helper of
    packages/app-store/auth.ts that turns it into the URL-safe form of
    RFC 4648 section 5 by three global replaces, and the decoding that
    `Buffer.from(s, "base64url")` performs on well-formed input. */
module Base64 {
  import opened Common
  import opened Text

  type Byte = x: int | 0 <= x < 256

  /** The standard alphabet (RFC 4648 table 1). */
  function StdChar(v: nat): char
    requires v < 64
  {
    if v < 26 then ('A' as int + v) as char
    else if v < 52 then ('a' as int + (v - 26)) as char
    else if v < 62 then ('0' as int + (v - 52)) as char
    else if v == 62 then '+'
    else '/'
  }

  /** The URL- and filename-safe alphabet (RFC 4648 table 2). */
  function UrlChar(v: nat): (c: char)
    requires v < 64
    ensures IsUrlChar(c)
  {
    if v < 62 then StdChar(v) else if v == 62 then '-' else '_'
  }

  predicate IsUrlChar(c: char) {
    ('A' <= c <= 'Z') || ('a' <= c <= 'z') || ('0' <= c <= '9') || c == '-' || c == '_'
  }

  /** The sextet a URL-safe character stands for. */
  function UrlValue(c: char): (r: Option<nat>)
    ensures r.Some? <==> IsUrlChar(c)
    ensures r.Some? ==> r.value < 64 && UrlChar(r.value) == c
  {
    if 'A' <= c <= 'Z' then Some(c as int - 'A' as int)
    else if 'a' <= c <= 'z' then Some(c as int - 'a' as int + 26)
    else if '0' <= c <= '9' then Some(c as int - '0' as int + 52)
    else if c == '-' then Some(62)
    else if c == '_' then Some(63)
    else None
  }

  lemma UrlValueOfUrlChar(v: nat)
    requires v < 64
    ensures IsUrlChar(UrlChar(v)) && UrlValue(UrlChar(v)) == Some(v)
  {
  }

  // The four sextets of a three-byte group.
  function S0(b0: Byte): nat { b0 / 4 }
  function S1(b0: Byte, b1: Byte): nat { b0 % 4 * 16 + b1 / 16 }
  function S2(b1: Byte, b2: Byte): nat { b1 % 16 * 4 + b2 / 64 }
  function S3(b2: Byte): nat { b2 % 64 }

  /** `Buffer.from(bytes).toString("base64")`: groups of three bytes become
      four characters; a final group of one or two bytes is padded with '='. */
  function Encode(b: seq<Byte>): string
  {
    if |b| == 0 then ""
    else if |b| == 1 then [StdChar(S0(b[0])), StdChar(S1(b[0], 0))] + "=="
    else if |b| == 2 then [StdChar(S0(b[0])), StdChar(S1(b[0], b[1])), StdChar(S2(b[1], 0))] + "="
    else [StdChar(S0(b[0])), StdChar(S1(b[0], b[1])), StdChar(S2(b[1], b[2])), StdChar(S3(b[2]))] + Encode(b[3..])
  }

  /** The `base64url` helper: `.replace(/=/g, "").replace(/\+/g, "-").replace(/\//g, "_")`
      applied to the standard encoding. */
  function Base64Url(b: seq<Byte>): (r: string)
    ensures '=' !in r && '+' !in r && '/' !in r
  {
    UrlForm(Encode(b))
  }

  function UrlForm(s: string): string {
    ReplaceChar(ReplaceChar(RemoveChar(s, '='), '+', '-'), '/', '_')
  }

  /** The unpadded URL-safe encoding of RFC 4648 section 5, written group by group. */
  function UrlEncode(b: seq<Byte>): (s: string)
    ensures forall i :: 0 <= i < |s| ==> IsUrlChar(s[i])
    ensures |s| == 0 <==> |b| == 0
    ensures |s| % 4 != 1
  {
    if |b| == 0 then ""
    else if |b| == 1 then
      SextetBounds(b[0], 0, 0);
      [UrlChar(S0(b[0])), UrlChar(S1(b[0], 0))]
    else if |b| == 2 then
      SextetBounds(b[0], b[1], 0);
      [UrlChar(S0(b[0])), UrlChar(S1(b[0], b[1])), UrlChar(S2(b[1], 0))]
    else
      SextetBounds(b[0], b[1], b[2]);
      var head := [UrlChar(S0(b[0])), UrlChar(S1(b[0], b[1])), UrlChar(S2(b[1], b[2])), UrlChar(S3(b[2]))];
      var tail := UrlEncode(b[3..]);
      assert (4 + |tail|) % 4 == |tail| % 4;
      head + tail
  }

  /** `Buffer.from(s, "base64url")` on well-formed unpadded input: every four
      characters give three bytes, a final two or three give one or two.
      None stands for input that is not such a string. */
  function UrlDecode(s: string): Option<seq<Byte>>
  {
    if |s| == 0 then Some([])
    else if |s| == 1 then None
    else
      var v0, v1 := UrlValue(s[0]), UrlValue(s[1]);
      if v0.None? || v1.None? then None
      else if |s| == 2 then Some([Join01(v0.value, v1.value)])
      else
        var v2 := UrlValue(s[2]);
        if v2.None? then None
        else if |s| == 3 then Some([Join01(v0.value, v1.value), Join12(v1.value, v2.value)])
        else
          var v3 := UrlValue(s[3]);
          if v3.None? then None
          else
            match UrlDecode(s[4..])
            case None => None
            case Some(rest) =>
              Some([Join01(v0.value, v1.value), Join12(v1.value, v2.value), Join23(v2.value, v3.value)] + rest)
  }

  function Join01(v0: nat, v1: nat): Byte
    requires v0 < 64 && v1 < 64
  {
    (v0 * 4 + v1 / 16) % 256
  }

  function Join12(v1: nat, v2: nat): Byte
    requires v1 < 64 && v2 < 64
  {
    (v1 % 16 * 16 + v2 / 4) % 256
  }

  function Join23(v2: nat, v3: nat): Byte
    requires v2 < 64 && v3 < 64
  {
    (v2 % 4 * 64 + v3) % 256
  }

  lemma SextetBounds(b0: Byte, b1: Byte, b2: Byte)
    ensures S0(b0) < 64 && S1(b0, b1) < 64 && S2(b1, b2) < 64 && S3(b2) < 64
  {
  }

  lemma JoinsUndoSextets(b0: Byte, b1: Byte, b2: Byte)
    ensures S0(b0) < 64 && S1(b0, b1) < 64 && S2(b1, b2) < 64 && S3(b2) < 64
    ensures Join01(S0(b0), S1(b0, b1)) == b0
    ensures Join12(S1(b0, b1), S2(b1, b2)) == b1
    ensures Join23(S2(b1, b2), S3(b2)) == b2
  {
    JoinUndoesFirst(b0, b1);
    JoinUndoesSecond(b0, b1, b2);
    JoinUndoesThird(b1, b2);
  }

  lemma JoinUndoesFirst(b0: Byte, b1: Byte)
    ensures S0(b0) < 64 && S1(b0, b1) < 64
    ensures Join01(S0(b0), S1(b0, b1)) == b0
  {
    assert b0 == b0 / 4 * 4 + b0 % 4;
    assert S1(b0, b1) / 16 == b0 % 4;
  }

  lemma JoinUndoesSecond(b0: Byte, b1: Byte, b2: Byte)
    ensures S1(b0, b1) < 64 && S2(b1, b2) < 64
    ensures Join12(S1(b0, b1), S2(b1, b2)) == b1
  {
    assert b1 == b1 / 16 * 16 + b1 % 16;
    assert S1(b0, b1) % 16 == b1 / 16;
    assert S2(b1, b2) / 4 == b1 % 16;
  }

  lemma JoinUndoesThird(b1: Byte, b2: Byte)
    ensures S2(b1, b2) < 64 && S3(b2) < 64
    ensures Join23(S2(b1, b2), S3(b2)) == b2
  {
    assert b2 == b2 / 64 * 64 + b2 % 64;
    assert S2(b1, b2) % 4 == b2 / 64;
  }

  lemma DecodeTwoChars(v0: nat, v1: nat)
    requires v0 < 64 && v1 < 64
    ensures UrlDecode([UrlChar(v0), UrlChar(v1)]) == Some([Join01(v0, v1)])
  {
    UrlValueOfUrlChar(v0);
    UrlValueOfUrlChar(v1);
  }

  lemma DecodeThreeChars(v0: nat, v1: nat, v2: nat)
    requires v0 < 64 && v1 < 64 && v2 < 64
    ensures UrlDecode([UrlChar(v0), UrlChar(v1), UrlChar(v2)]) == Some([Join01(v0, v1), Join12(v1, v2)])
  {
    UrlValueOfUrlChar(v0);
    UrlValueOfUrlChar(v1);
    UrlValueOfUrlChar(v2);
  }

  lemma DecodeFourChars(v0: nat, v1: nat, v2: nat, v3: nat, rest: string, tail: seq<Byte>)
    requires v0 < 64 && v1 < 64 && v2 < 64 && v3 < 64
    requires UrlDecode(rest) == Some(tail)
    ensures UrlDecode([UrlChar(v0), UrlChar(v1), UrlChar(v2), UrlChar(v3)] + rest)
         == Some([Join01(v0, v1), Join12(v1, v2), Join23(v2, v3)] + tail)
  {
    UrlValueOfUrlChar(v0);
    UrlValueOfUrlChar(v1);
    UrlValueOfUrlChar(v2);
    UrlValueOfUrlChar(v3);
    var s := [UrlChar(v0), UrlChar(v1), UrlChar(v2), UrlChar(v3)] + rest;
    assert s[4..] == rest;
  }

  /** Decoding the URL-safe encoding gives the bytes back. */
  lemma {:induction false} UrlRoundTrip(b: seq<Byte>)
    ensures UrlDecode(UrlEncode(b)) == Some(b)
  {
    if |b| == 0 {
    } else if |b| == 1 {
      assert b == [b[0]];
      JoinsUndoSextets(b[0], 0, 0);
      DecodeTwoChars(S0(b[0]), S1(b[0], 0));
    } else if |b| == 2 {
      assert b == [b[0], b[1]];
      JoinsUndoSextets(b[0], b[1], 0);
      DecodeThreeChars(S0(b[0]), S1(b[0], b[1]), S2(b[1], 0));
    } else {
      assert b == [b[0], b[1], b[2]] + b[3..];
      UrlRoundTrip(b[3..]);
      JoinsUndoSextets(b[0], b[1], b[2]);
      DecodeFourChars(S0(b[0]), S1(b[0], b[1]), S2(b[1], b[2]), S3(b[2]), UrlEncode(b[3..]), b[3..]);
    }
  }

  lemma UrlFormChar(c: char)
    ensures UrlForm([c]) == if c == '=' then "" else if c == '+' then "-" else if c == '/' then "_" else [c]
  {
    assert RemoveChar([c], '=') == (if c == '=' then "" else [c]) + RemoveChar([], '=');
  }

  lemma {:induction false} RemoveCharAppend(x: string, y: string, c: char)
    ensures RemoveChar(x + y, c) == RemoveChar(x, c) + RemoveChar(y, c)
  {
    if |x| > 0 {
      assert (x + y)[1..] == x[1..] + y;
      RemoveCharAppend(x[1..], y, c);
    } else {
      assert x + y == y;
    }
  }

  lemma ReplaceCharAppend(x: string, y: string, c: char, e: char)
    ensures ReplaceChar(x + y, c, e) == ReplaceChar(x, c, e) + ReplaceChar(y, c, e)
  {
  }

  lemma UrlFormAppend(x: string, y: string)
    ensures UrlForm(x + y) == UrlForm(x) + UrlForm(y)
  {
    RemoveCharAppend(x, y, '=');
    var r1, r2 := RemoveChar(x, '='), RemoveChar(y, '=');
    ReplaceCharAppend(r1, r2, '+', '-');
    ReplaceCharAppend(ReplaceChar(r1, '+', '-'), ReplaceChar(r2, '+', '-'), '/', '_');
  }

  lemma UrlFormOfStdChar(v: nat)
    requires v < 64
    ensures UrlForm([StdChar(v)]) == [UrlChar(v)]
  {
    UrlFormChar(StdChar(v));
  }

  lemma UrlFormFour(c0: char, c1: char, c2: char, c3: char)
    ensures UrlForm([c0, c1, c2, c3]) == UrlForm([c0]) + UrlForm([c1]) + UrlForm([c2]) + UrlForm([c3])
  {
    assert [c0, c1, c2, c3] == [c0] + [c1] + [c2] + [c3];
    UrlFormAppend([c0] + [c1] + [c2], [c3]);
    UrlFormAppend([c0] + [c1], [c2]);
    UrlFormAppend([c0], [c1]);
  }

  lemma UrlFormOneByte(b0: Byte)
    ensures UrlForm(Encode([b0])) == UrlEncode([b0])
  {
    var a0, a1 := S0(b0), S1(b0, 0);
    SextetBounds(b0, 0, 0);
    assert Encode([b0]) == [StdChar(a0), StdChar(a1), '=', '='];
    UrlFormFour(StdChar(a0), StdChar(a1), '=', '=');
    UrlFormOfStdChar(a0);
    UrlFormOfStdChar(a1);
    UrlFormChar('=');
  }

  lemma UrlFormTwoBytes(b0: Byte, b1: Byte)
    ensures UrlForm(Encode([b0, b1])) == UrlEncode([b0, b1])
  {
    var a0, a1, a2 := S0(b0), S1(b0, b1), S2(b1, 0);
    SextetBounds(b0, b1, 0);
    assert Encode([b0, b1]) == [StdChar(a0), StdChar(a1), StdChar(a2), '='];
    UrlFormFour(StdChar(a0), StdChar(a1), StdChar(a2), '=');
    UrlFormOfStdChar(a0);
    UrlFormOfStdChar(a1);
    UrlFormOfStdChar(a2);
    UrlFormChar('=');
  }

  lemma UrlFormGroupHead(b0: Byte, b1: Byte, b2: Byte)
    ensures S0(b0) < 64 && S1(b0, b1) < 64 && S2(b1, b2) < 64 && S3(b2) < 64
    ensures UrlForm([StdChar(S0(b0)), StdChar(S1(b0, b1)), StdChar(S2(b1, b2)), StdChar(S3(b2))])
         == [UrlChar(S0(b0)), UrlChar(S1(b0, b1)), UrlChar(S2(b1, b2)), UrlChar(S3(b2))]
  {
    SextetBounds(b0, b1, b2);
    UrlFormOfSextets(S0(b0), S1(b0, b1), S2(b1, b2), S3(b2));
  }

  lemma UrlFormOfSextets(v0: nat, v1: nat, v2: nat, v3: nat)
    requires v0 < 64 && v1 < 64 && v2 < 64 && v3 < 64
    ensures UrlForm([StdChar(v0), StdChar(v1), StdChar(v2), StdChar(v3)])
         == [UrlChar(v0), UrlChar(v1), UrlChar(v2), UrlChar(v3)]
  {
    UrlFormFour(StdChar(v0), StdChar(v1), StdChar(v2), StdChar(v3));
    UrlFormOfStdChar(v0);
    UrlFormOfStdChar(v1);
    UrlFormOfStdChar(v2);
    UrlFormOfStdChar(v3);
  }

  lemma UrlFormGroup(b: seq<Byte>)
    requires |b| >= 3
    requires UrlForm(Encode(b[3..])) == UrlEncode(b[3..])
    ensures UrlForm(Encode(b)) == UrlEncode(b)
  {
    UrlFormGroupHead(b[0], b[1], b[2]);
    var head := [StdChar(S0(b[0])), StdChar(S1(b[0], b[1])), StdChar(S2(b[1], b[2])), StdChar(S3(b[2]))];
    assert Encode(b) == head + Encode(b[3..]);
    UrlFormAppend(head, Encode(b[3..]));
  }

  /** The source's three replaces applied to the padded standard encoding are
      exactly the unpadded URL-safe encoding. */
  lemma {:induction false} Base64UrlIsUrlEncode(b: seq<Byte>)
    ensures Base64Url(b) == UrlEncode(b)
  {
    if |b| == 0 {
      assert Encode(b) == "";
    } else if |b| == 1 {
      assert b == [b[0]];
      UrlFormOneByte(b[0]);
    } else if |b| == 2 {
      assert b == [b[0], b[1]];
      UrlFormTwoBytes(b[0], b[1]);
    } else {
      Base64UrlIsUrlEncode(b[3..]);
      UrlFormGroup(b);
    }
  }

  /** What the `base64url` helper produces: only URL-safe characters (so no
      '=', '+', '/' and no '.'), empty only for empty input, and decodable
      back to the input. */
  lemma Base64UrlProperties(b: seq<Byte>)
    ensures forall i :: 0 <= i < |Base64Url(b)| ==> IsUrlChar(Base64Url(b)[i])
    ensures '=' !in Base64Url(b) && '+' !in Base64Url(b) && '/' !in Base64Url(b) && '.' !in Base64Url(b)
    ensures Base64Url(b) == "" <==> b == []
    ensures UrlDecode(Base64Url(b)) == Some(b)
  {
    Base64UrlIsUrlEncode(b);
    UrlRoundTrip(b);
  }
}
