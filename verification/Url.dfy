/** The URL codec: UrlEncode and UrlDecode. */
module Url {
  import opened Streams

  /** Decoding runs into one of the codec's assertions, or yields the bytes. */
  datatype Decoded = AssertionFailed | Ok(bytes: seq<Byte>)

  const PLUS: Byte := 43
  const PERCENT: Byte := 37
  const SPACE: Byte := 32
  const AMPERSAND: Byte := 38
  const EQUALS: Byte := 61
  const QUESTION: Byte := 63

  predicate IsDigit(x: Byte) { 48 <= x <= 57 }
  predicate IsUpper(x: Byte) { 65 <= x <= 90 }
  predicate IsLower(x: Byte) { 97 <= x <= 122 }

  /** Letters, digits, '-', '_', '.', '~': the unreserved characters of section 2.3 of RFC 3986. */
  predicate Unreserved(x: Byte) {
    IsDigit(x) || IsUpper(x) || IsLower(x) || x == 45 || x == 95 || x == 46 || x == 126
  }

  function ToHex(x: Byte): Byte
    requires x < 16
  {
    if x > 9 then x + 55 else x + 48
  }

  /** An ASCII letter or digit. */
  predicate IsHex(x: Byte) { IsUpper(x) || IsLower(x) || IsDigit(x) }

  /** FromHex accepts every ASCII letter, not only A to F. */
  function FromHex(x: Byte): Byte
    requires IsHex(x)
  {
    if IsUpper(x) then x - 65 + 10 else if IsLower(x) then x - 97 + 10 else x - 48
  }

  function EncodeByte(x: Byte): seq<Byte> {
    if Unreserved(x) then [x]
    else if x == SPACE then [PLUS]
    else [PERCENT, ToHex(x / 16), ToHex(x % 16)]
  }

  function Encode(s: seq<Byte>): seq<Byte> {
    if s == [] then [] else EncodeByte(s[0]) + Encode(s[1..])
  }

  function Prepend(x: Byte, d: Decoded): Decoded {
    if d.Ok? then Ok([x] + d.bytes) else d
  }

  function Decode(s: seq<Byte>): Decoded {
    if s == [] then Ok([])
    else if s[0] == PLUS then Prepend(SPACE, Decode(s[1..]))
    else if s[0] == PERCENT then
      if |s| > 2 && IsHex(s[1]) && IsHex(s[2]) then
        Prepend((FromHex(s[1]) * 16 + FromHex(s[2])) % 256, Decode(s[3..]))
      else AssertionFailed
    else Prepend(s[0], Decode(s[1..]))
  }

  lemma EncodeNext(str: seq<Byte>, i: nat)
    requires i < |str|
    ensures Encode(str[i..]) == EncodeByte(str[i]) + Encode(str[i + 1..])
  {
  }

  method UrlEncode(str: seq<Byte>) returns (result: seq<Byte>)
    ensures result == Encode(str)
  {
    result := [];
    var i := 0;
    while i < |str|
      invariant i <= |str|
      invariant result + Encode(str[i..]) == Encode(str)
    {
      var c := str[i];
      EncodeNext(str, i);
      ghost var before, rest := result, Encode(str[i + 1..]);
      if Unreserved(c) {
        result := result + [c];
      } else if c == SPACE {
        result := result + [PLUS];
      } else {
        result := result + [PERCENT];
        result := result + [ToHex(c / 16)];
        result := result + [ToHex(c % 16)];
      }
      assert result == before + EncodeByte(c);
      ConcatAssociates(before, EncodeByte(c), rest);
      i := i + 1;
    }
  }

  /** The bytes decoded so far, put in front of what is still to come. */
  function After(done: seq<Byte>, d: Decoded): Decoded {
    if d.Ok? then Ok(done + d.bytes) else d
  }

  lemma AfterPrepend(done: seq<Byte>, x: Byte, d: Decoded)
    ensures After(done, Prepend(x, d)) == After(done + [x], d)
  {
  }

  method UrlDecode(str: seq<Byte>) returns (result: Decoded)
    ensures result == Decode(str)
  {
    var done: seq<Byte> := [];
    var i := 0;
    while i < |str|
      invariant i <= |str|
      invariant After(done, Decode(str[i..])) == Decode(str)
    {
      ghost var rest := str[i..];
      var x: Byte;
      if str[i] == PLUS {
        x := SPACE;
      } else if str[i] == PERCENT {
        if i + 2 >= |str| || !IsHex(str[i + 1]) || !IsHex(str[i + 2]) {
          return AssertionFailed;
        }
        i := i + 1;
        var high: int := FromHex(str[i]);
        i := i + 1;
        var low: int := FromHex(str[i]);
        x := (high * 16 + low) % 256;
        assert rest[3..] == str[i + 1..];
      } else {
        x := str[i];
      }
      assert rest[0] != PERCENT ==> rest[1..] == str[i + 1..];
      i := i + 1;
      assert Decode(rest) == Prepend(x, Decode(str[i..]));
      AfterPrepend(done, x, Decode(str[i..]));
      done := done + [x];
    }
    assert After(done, Ok([])) == Ok(done);
    return Ok(done);
  }

  // ----- the codes of single bytes -----

  /** The digit `x` has the value `d`, in upper or in lower case; digits go on from F to Z. */
  predicate Spells(x: int, d: int) {
    (0 <= d < 10 && x == '0' as int + d) || (10 <= d < 36 && (x == 'A' as int + d - 10 || x == 'a' as int + d - 10))
  }

  /** Letters, digits and -_.~ are left alone, a space becomes a plus sign, and every other byte a percent sign and its
      two digits, in upper case. */
  lemma EncodeByteExactly(x: Byte)
    ensures EncodeByte(x) ==
            if ('A' as int <= x <= 'Z' as int) || ('a' as int <= x <= 'z' as int) || ('0' as int <= x <= '9' as int)
               || x == '-' as int || x == '_' as int || x == '.' as int || x == '~' as int then [x]
            else if x == ' ' as int then ['+' as int]
            else ['%' as int, ToHex(x / 16), ToHex(x % 16)]
    ensures Spells(ToHex(x / 16), x / 16) && ToHex(x / 16) <= 'F' as int
    ensures Spells(ToHex(x % 16), x % 16) && ToHex(x % 16) <= 'F' as int
  {
  }

  /** What the decoder does with any byte that is no percent sign: a plus sign is a space, everything else, reserved or
      not, stands for itself. */
  lemma DecodePlain(x: Byte, rest: seq<Byte>)
    requires x != '%' as int
    ensures Decode([x] + rest) == After([if x == '+' as int then ' ' as int else x], Decode(rest))
  {
    assert ([x] + rest)[1..] == rest;
  }

  /** What it does with any escape: two digits of either case give the byte they spell, digits beyond F modulo 256, and
      with any other character, or too few, it aborts. */
  lemma DecodePercent(high: Byte, low: Byte, rest: seq<Byte>, h: int, l: int)
    ensures Spells(high, h) && Spells(low, l) ==>
              Decode(['%' as int, high, low] + rest) == After([(16 * h + l) % 256], Decode(rest))
    ensures (forall d :: !Spells(high, d)) || (forall d :: !Spells(low, d)) ==>
              Decode(['%' as int, high, low] + rest).AssertionFailed?
    ensures Decode(['%' as int]).AssertionFailed? && Decode(['%' as int, high]).AssertionFailed?
  {
    DigitExactly(high, h);
    DigitExactly(low, l);
    if IsHex(high) && IsHex(low) {
      DecodeEscape(high, low, rest);
      assert Spells(high, FromHex(high)) && Spells(low, FromHex(low));
    } else {
      var s := [PERCENT, high, low] + rest;
      assert s[0] == PERCENT && s[1] == high && s[2] == low;
    }
  }

  lemma DigitExactly(x: Byte, d: int)
    ensures Spells(x, d) <==> IsHex(x) && FromHex(x) == d
  {
  }

  /** Encoder output: unreserved characters, '+', and '%' followed by two of 0-9A-F. */
  predicate UrlSafe(s: seq<Byte>) {
    s == []
    || ((Unreserved(s[0]) || s[0] == PLUS) && UrlSafe(s[1..]))
    || (s[0] == PERCENT && |s| > 2 && UpperHex(s[1]) && UpperHex(s[2]) && UrlSafe(s[3..]))
  }

  predicate UpperHex(x: Byte) { IsDigit(x) || 65 <= x <= 70 }

  lemma HexBack(x: Byte)
    ensures var high, low := ToHex(x / 16), ToHex(x % 16);
            IsHex(high) && IsHex(low) && (FromHex(high) * 16 + FromHex(low)) % 256 == x
  {
    assert x == x / 16 * 16 + x % 16;
  }

  lemma DecodeEscape(high: Byte, low: Byte, rest: seq<Byte>)
    requires IsHex(high) && IsHex(low)
    ensures Decode([PERCENT, high, low] + rest) == Prepend((FromHex(high) * 16 + FromHex(low)) % 256, Decode(rest))
  {
    var s := [PERCENT, high, low] + rest;
    assert s[0] == PERCENT && s[1] == high && s[2] == low && s[3..] == rest;
  }

  lemma DecodeEncodedByte(x: Byte, rest: seq<Byte>)
    ensures Decode(EncodeByte(x) + rest) == Prepend(x, Decode(rest))
  {
    if Unreserved(x) || x == SPACE {
      assert (EncodeByte(x) + rest)[1..] == rest;
    } else {
      HexBack(x);
      DecodeEscape(ToHex(x / 16), ToHex(x % 16), rest);
    }
  }

  /** Decoding what the encoder wrote returns the input and meets none of the decoder's assertions. */
  lemma {:induction false} DecodeEncode(s: seq<Byte>)
    ensures Decode(Encode(s)) == Ok(s)
  {
    if s != [] {
      DecodeEncode(s[1..]);
      DecodeEncodedByte(s[0], Encode(s[1..]));
    }
  }

  lemma {:induction false} EncodeIsUrlSafe(s: seq<Byte>)
    ensures UrlSafe(Encode(s))
    ensures AMPERSAND !in Encode(s) && EQUALS !in Encode(s) && QUESTION !in Encode(s)
  {
    if s != [] {
      EncodeIsUrlSafe(s[1..]);
      var code, rest := EncodeByte(s[0]), Encode(s[1..]);
      assert (code + rest)[|code|..] == rest;
      assert AMPERSAND !in code && EQUALS !in code && QUESTION !in code;
    }
  }

  lemma EncodeInjective(a: seq<Byte>, b: seq<Byte>)
    requires Encode(a) == Encode(b)
    ensures a == b
  {
    DecodeEncode(a);
    DecodeEncode(b);
  }

  /** Strings in the encoder's own form: UrlSafe, with escapes only for bytes that need one. */
  predicate Canonical(s: seq<Byte>) {
    s == []
    || ((Unreserved(s[0]) || s[0] == PLUS) && Canonical(s[1..]))
    || (s[0] == PERCENT && |s| > 2 && UpperHex(s[1]) && UpperHex(s[2]) && NeedsEscape(Unhex(s[1], s[2]))
        && Canonical(s[3..]))
  }

  function Unhex(high: Byte, low: Byte): int
    requires IsHex(high) && IsHex(low)
  {
    FromHex(high) * 16 + FromHex(low)
  }

  predicate NeedsEscape(x: int) {
    0 <= x < 256 && !Unreserved(x) && x != SPACE
  }

  lemma {:induction false} EncodeIsCanonical(b: seq<Byte>)
    ensures Canonical(Encode(b))
  {
    if b != [] {
      EncodeIsCanonical(b[1..]);
      var code, rest := EncodeByte(b[0]), Encode(b[1..]);
      assert (code + rest)[|code|..] == rest;
    }
  }

  /** A canonical string starts with the code of some byte. */
  lemma CanonicalHead(s: seq<Byte>) returns (x: Byte, rest: seq<Byte>)
    requires Canonical(s) && s != []
    ensures s == EncodeByte(x) + rest && Canonical(rest) && |rest| < |s|
  {
    if s[0] == PERCENT {
      x, rest := Unhex(s[1], s[2]), s[3..];
      assert ToHex(x / 16) == s[1] && ToHex(x % 16) == s[2];
    } else {
      x, rest := if s[0] == PLUS then SPACE else s[0], s[1..];
    }
  }

  lemma {:induction false} CanonicalReencodes(s: seq<Byte>)
    requires Canonical(s)
    ensures Decode(s).Ok? && Encode(Decode(s).bytes) == s
    decreases |s|
  {
    if s != [] {
      var x, rest := CanonicalHead(s);
      CanonicalReencodes(rest);
      DecodeEncodedByte(x, rest);
      assert ([x] + Decode(rest).bytes)[1..] == Decode(rest).bytes;
    }
  }

  /** When encoding inverts decoding, exactly: on the canonical strings. All others decode, if at all, to bytes that
      some canonical string also decodes to. */
  lemma ReencodesExactly(s: seq<Byte>)
    ensures Decode(s).Ok? && Encode(Decode(s).bytes) == s <==> Canonical(s)
    ensures Decode(s).Ok? && !Canonical(s) ==>
              var t := Encode(Decode(s).bytes); t != s && Canonical(t) && Decode(t) == Decode(s)
  {
    if Canonical(s) {
      CanonicalReencodes(s);
    } else if Decode(s).Ok? {
      EncodeIsCanonical(Decode(s).bytes);
      DecodeEncode(Decode(s).bytes);
    }
  }
}
