/** The harness's hex codec, over the bytes of a text. */
module HexCodecs {
  import opened Common

  datatype HexError = OddLength | InvalidHexChar
  datatype Decoded = Ok(bytes: seq<byte>) | Err(error: HexError)

  const ZERO: byte := 48
  const NINE: byte := 57
  const UPPER_A: byte := 65
  const UPPER_F: byte := 70
  const LOWER_A: byte := 97
  const LOWER_F: byte := 102
  const LOWER_X: byte := 120
  const HEX: seq<byte> := [48, 49, 50, 51, 52, 53, 54, 55, 56, 57, 97, 98, 99, 100, 101, 102]

  function Digit(n: byte): byte
    requires n < 16
  {
    HEX[n]
  }

  function FromHexChar(c: byte): (v: Option<byte>)
    ensures v.Some? ==> v.value < 16
  {
    if ZERO <= c <= NINE then Some(c - ZERO)
    else if LOWER_A <= c <= LOWER_F then Some(10 + (c - LOWER_A))
    else if UPPER_A <= c <= UPPER_F then Some(10 + (c - UPPER_A))
    else None
  }

  /** Every leading "0x" goes, not only the first. */
  function TrimStart(s: seq<byte>): seq<byte> {
    if |s| >= 2 && s[0] == ZERO && s[1] == LOWER_X then TrimStart(s[2..]) else s
  }

  function Encode(bytes: seq<byte>): seq<byte> {
    if bytes == [] then [] else [Digit(bytes[0] / 16), Digit(bytes[0] % 16)] + Encode(bytes[1..])
  }

  function Pair(hi: byte, lo: byte): byte
    requires hi < 16 && lo < 16
  {
    hi * 16 + lo
  }

  function DecodePairs(s: seq<byte>): Decoded
    requires |s| % 2 == 0
  {
    if s == [] then Ok([])
    else
      var hi, lo := FromHexChar(s[0]), FromHexChar(s[1]);
      if hi.None? || lo.None? then Err(InvalidHexChar)
      else
        match DecodePairs(s[2..])
        case Err(e) => Err(e)
        case Ok(rest) => Ok([Pair(hi.value, lo.value)] + rest)
  }

  function Decode(s: seq<byte>): Decoded {
    var t := TrimStart(s);
    if |t| % 2 != 0 then Err(OddLength) else DecodePairs(t)
  }

  method HexEncode(bytes: seq<byte>) returns (out: seq<byte>)
    ensures out == Encode(bytes)
  {
    out := [];
    for i := 0 to |bytes|
      invariant out + Encode(bytes[i..]) == Encode(bytes)
    {
      out := out + [HEX[bytes[i] / 16]];
      out := out + [HEX[bytes[i] % 16]];
    }
  }

  method HexDecode(s: seq<byte>) returns (r: Decoded)
    ensures r == Decode(s)
  {
    var t := TrimStart(s);
    if |t| % 2 != 0 {
      return Err(OddLength);
    }
    var out: seq<byte> := [];
    var i := 0;
    while i < |t|
      invariant 0 <= i <= |t| && i % 2 == 0
      invariant DecodePairs(t) == match DecodePairs(t[i..])
                                  case Err(e) => Err(e)
                                  case Ok(rest) => Ok(out + rest)
    {
      var hi, lo := FromHexChar(t[i]), FromHexChar(t[i + 1]);
      assert t[i..][2..] == t[i + 2..];
      if hi.None? || lo.None? {
        return Err(InvalidHexChar);
      }
      ghost var before := out;
      out := out + [hi.value * 16 + lo.value];
      if DecodePairs(t[i + 2..]).Ok? {
        Associative(before, [hi.value * 16 + lo.value], DecodePairs(t[i + 2..]).bytes);
      }
      i := i + 2;
    }
    assert t[i..] == [];
    assert out + [] == out;
    r := Ok(out);
  }

  lemma HexDigit(n: byte)
    requires n < 16
    ensures FromHexChar(Digit(n)) == Some(n) && Digit(n) != LOWER_X
    ensures Lower(Digit(n)) == Digit(n)
  {
    if n < 10 {
      assert Digit(n) == ZERO + n;
    } else {
      assert Digit(n) == LOWER_A + (n - 10);
    }
  }

  lemma HexDigitsOf(b: byte)
    ensures FromHexChar(Digit(b / 16)).Some? && FromHexChar(Digit(b % 16)).Some?
    ensures Pair(FromHexChar(Digit(b / 16)).value, FromHexChar(Digit(b % 16)).value) == b
  {
    HexDigit(b / 16);
    HexDigit(b % 16);
  }

  lemma EncodeIsClean(bytes: seq<byte>)
    ensures |Encode(bytes)| == 2 * |bytes|
    ensures TrimStart(Encode(bytes)) == Encode(bytes)
  {
    if bytes != [] {
      HexDigit(bytes[0] % 16);
      EncodeIsClean(bytes[1..]);
    }
  }

  lemma DecodeStep(s: seq<byte>)
    requires |s| % 2 == 0 && s != []
    ensures DecodePairs(s).Ok? <==>
            FromHexChar(s[0]).Some? && FromHexChar(s[1]).Some? && DecodePairs(s[2..]).Ok?
    ensures DecodePairs(s).Ok? ==>
              DecodePairs(s).bytes
              == [Pair(FromHexChar(s[0]).value, FromHexChar(s[1]).value)] + DecodePairs(s[2..]).bytes
  {
  }

  lemma DecodeOnePair(b: byte, s: seq<byte>)
    requires |s| % 2 == 0 && DecodePairs(s).Ok?
    ensures |[Digit(b / 16), Digit(b % 16)] + s| % 2 == 0
    ensures DecodePairs([Digit(b / 16), Digit(b % 16)] + s) == Ok([b] + DecodePairs(s).bytes)
  {
    hide FromHexChar, Digit, Pair, DecodePairs;
    HexDigitsOf(b);
    DecodeStep([Digit(b / 16), Digit(b % 16)] + s);
    assert ([Digit(b / 16), Digit(b % 16)] + s)[2..] == s;
  }

  lemma {:induction false} DecodePairsOfEncode(bytes: seq<byte>)
    ensures |Encode(bytes)| % 2 == 0 && DecodePairs(Encode(bytes)) == Ok(bytes)
  {
    if bytes != [] {
      hide FromHexChar, Digit, DecodePairs;
      DecodePairsOfEncode(bytes[1..]);
      DecodeOnePair(bytes[0], Encode(bytes[1..]));
      assert [bytes[0]] + bytes[1..] == bytes;
    }
  }

  function Prefixed(n: nat, s: seq<byte>): seq<byte> {
    if n == 0 then s else [ZERO, LOWER_X] + Prefixed(n - 1, s)
  }

  lemma {:induction false} TrimPrefixed(n: nat, s: seq<byte>)
    ensures TrimStart(Prefixed(n, s)) == TrimStart(s)
  {
    if n > 0 {
      TrimPrefixed(n - 1, s);
      assert Prefixed(n, s)[2..] == Prefixed(n - 1, s);
    }
  }

  /** Decoding undoes encoding for every byte string, with any number of "0x" in front. */
  lemma DecodeEncode(bytes: seq<byte>, prefixes: nat)
    ensures Decode(Prefixed(prefixes, Encode(bytes))) == Ok(bytes)
  {
    TrimPrefixed(prefixes, Encode(bytes));
    EncodeIsClean(bytes);
    DecodePairsOfEncode(bytes);
  }

  /** ASCII lower case. */
  function Lower(c: byte): byte {
    if UPPER_A <= c <= 90 then c + 32 else c
  }

  function LowerAll(s: seq<byte>): seq<byte> {
    seq(|s|, i requires 0 <= i < |s| => Lower(s[i]))
  }

  lemma LowerAllStep(s: seq<byte>)
    requires |s| >= 2
    ensures LowerAll(s) == [Lower(s[0]), Lower(s[1])] + LowerAll(s[2..])
  {
    hide Lower;
  }

  lemma DigitOfValue(c: byte)
    requires FromHexChar(c).Some?
    ensures Digit(FromHexChar(c).value) == Lower(c)
  {
    var v := FromHexChar(c).value;
    if v < 10 {
      assert Digit(v) == ZERO + v;
    } else {
      assert Digit(v) == LOWER_A + (v - 10);
    }
  }

  /** One decoded pair of digits encodes to the same pair in lower case. */
  lemma EncodeOnePair(hi: byte, lo: byte, rest: seq<byte>)
    requires FromHexChar(hi).Some? && FromHexChar(lo).Some?
    ensures Encode([Pair(FromHexChar(hi).value, FromHexChar(lo).value)] + rest) == [Lower(hi), Lower(lo)] + Encode(rest)
  {
    DigitOfValue(hi);
    DigitOfValue(lo);
    hide FromHexChar, Digit, Lower;
    var b := Pair(FromHexChar(hi).value, FromHexChar(lo).value);
    assert b / 16 == FromHexChar(hi).value && b % 16 == FromHexChar(lo).value;
    assert ([b] + rest)[1..] == rest;
  }

  lemma {:induction false} DecodesIffDigits(s: seq<byte>)
    requires |s| % 2 == 0
    ensures DecodePairs(s).Ok? <==> forall i | 0 <= i < |s| :: FromHexChar(s[i]).Some?
    decreases |s|
  {
    hide FromHexChar;
    if s != [] {
      DecodesIffDigits(s[2..]);
      DecodeStep(s);
      hide DecodePairs;
      assert forall i | 2 <= i < |s| :: s[2..][i - 2] == s[i];
    }
  }

  lemma {:induction false} EncodeOfDecodePairs(s: seq<byte>)
    requires |s| % 2 == 0 && DecodePairs(s).Ok?
    ensures Encode(DecodePairs(s).bytes) == LowerAll(s)
    decreases |s|
  {
    hide FromHexChar, Lower, Pair;
    if s != [] {
      DecodeStep(s);
      LowerAllStep(s);
      hide Encode, DecodePairs, LowerAll;
      EncodeOfDecodePairs(s[2..]);
      EncodeOnePair(s[0], s[1], DecodePairs(s[2..]).bytes);
    }
  }

  /** '0' to '9', 'A' to 'F', 'a' to 'f'. */
  predicate IsHexDigit(c: byte) {
    48 <= c <= 57 || 65 <= c <= 70 || 97 <= c <= 102
  }

  /** A leading "0x" goes as often as it occurs, and nothing else goes. */
  lemma {:induction false} TrimsPrefixes(s: seq<byte>) returns (n: nat)
    ensures s == Prefixed(n, TrimStart(s))
    ensures !(|TrimStart(s)| >= 2 && TrimStart(s)[..2] == [48, 120])
    decreases |s|
  {
    n := 0;
    if |s| >= 2 && s[0] == 48 && s[1] == 120 {
      var m := TrimsPrefixes(s[2..]);
      n := m + 1;
      assert s == [48, 120] + s[2..];
    }
  }

  /**
   What decodes is exactly an even number of hex digits, in either case, after the
   prefixes, and encoding it gives them in lower case. Otherwise an odd number is
   the fault, or else a character that is no digit.
   */
  lemma EncodeDecode(s: seq<byte>)
    ensures Decode(s).Ok? <==>
            |TrimStart(s)| % 2 == 0 && forall i | 0 <= i < |TrimStart(s)| :: IsHexDigit(TrimStart(s)[i])
    ensures Decode(s).Ok? ==> Encode(Decode(s).bytes) == LowerAll(TrimStart(s))
    ensures Decode(s) == Err(OddLength) <==> |TrimStart(s)| % 2 != 0
  {
    if |TrimStart(s)| % 2 == 0 {
      DecodesIffDigits(TrimStart(s));
      if Decode(s).Ok? {
        EncodeOfDecodePairs(TrimStart(s));
      }
      DecodePairsFault(TrimStart(s));
    }
  }

  lemma {:induction false} DecodePairsFault(s: seq<byte>)
    requires |s| % 2 == 0
    ensures DecodePairs(s).Err? ==> DecodePairs(s).error == InvalidHexChar
    decreases |s|
  {
    hide FromHexChar, Pair;
    if s != [] {
      DecodePairsFault(s[2..]);
    }
  }
}
