/** Base64 payloads inside JSON string escapes: what the whole text decodes to.
    The alphabet, the digits and the escapes are those of their standards, and decoding is reading one number. */
module Base64Text {
  import opened Arithmetic
  import opened Wrappers
  import opened Octets

  const BACKSLASH: byte := 92
  const QUOTE: byte := 34
  const SLASH: byte := 47

  // ----- JSON escapes -----

  function HexDigit(b: byte): Option<nat> {
    if 48 <= b <= 57 then Some(b - 48)
    else if 97 <= b <= 102 then Some(b - 97 + 10)
    else if 65 <= b <= 70 then Some(b - 65 + 10)
    else None
  }

  /** The value of some hexadecimal digits. */
  function HexValue(b: Bytes): Option<nat> {
    if b == [] then Some(0)
    else
      match (HexValue(b[..|b| - 1]), HexDigit(b[|b| - 1]))
      case (Some(v), Some(d)) => Some(v * 16 + d)
      case _ => None
  }

  lemma {:induction false} HexPrefixFails(b: Bytes, k: nat)
    requires k <= |b| && HexValue(b[..k]).None?
    ensures HexValue(b).None?
    decreases |b| - k
  {
    if k < |b| {
      assert b[..k + 1][..k] == b[..k];
      HexPrefixFails(b, k + 1);
    } else {
      assert b[..k] == b;
    }
  }

  /** One character of the text and how many bytes it takes. */
  datatype Token = Token(code: byte, width: nat)

  /** The first character of non-empty text; unknown escapes, escapes cut short and code
      points above one byte are malformed. */
  function NextToken(raw: Bytes): (t: Option<Token>)
    requires raw != []
    ensures t.Some? ==> 1 <= t.value.width <= |raw| && t.value.width <= 6
  {
    if raw[0] != BACKSLASH then Some(Token(raw[0], 1))
    else if |raw| < 2 then None
    else
      var c := raw[1];
      if c == 117 then
        if |raw| < 6 then None
        else
          match HexValue(raw[2..6])
          case Some(v) => if v < 256 then Some(Token(v, 6)) else None
          case None => None
      else if c == QUOTE || c == BACKSLASH || c == SLASH then Some(Token(c, 2))
      else if c == 98 then Some(Token(8, 2))
      else if c == 102 then Some(Token(12, 2))
      else if c == 110 then Some(Token(10, 2))
      else if c == 114 then Some(Token(13, 2))
      else if c == 116 then Some(Token(9, 2))
      else None
  }

  /** The characters of the text, if every escape is well formed. */
  function Unescape(raw: Bytes): Option<Bytes>
    decreases |raw|
  {
    if raw == [] then Some([])
    else
      match NextToken(raw)
      case None => None
      case Some(t) =>
        match Unescape(raw[t.width..])
        case None => None
        case Some(rest) => Some([t.code] + rest)
  }

  // ----- base64 without padding, URL alphabet -----

  function Sextet(c: byte): (r: Option<nat>)
    ensures r.Some? ==> r.value < 64
  {
    if 65 <= c <= 90 then Some(c - 65)
    else if 97 <= c <= 122 then Some(c - 97 + 26)
    else if 48 <= c <= 57 then Some(c - 48 + 52)
    else if c == 45 then Some(62)
    else if c == 95 then Some(63)
    else None
  }

  /** Four characters make three bytes; two or three at the end make one or two, their
      unused bits being zero; one character is malformed. */
  function Decode(chars: Bytes): Option<Bytes>
    decreases |chars|
  {
    if chars == [] then Some([])
    else if |chars| < 4 then DecodeEnd(chars)
    else
      match (DecodeGroup(chars[..4]), Decode(chars[4..]))
      case (Some(a), Some(b)) => Some(a + b)
      case _ => None
  }

  function DecodeGroup(g: Bytes): (r: Option<Bytes>)
    requires |g| == 4
    ensures r.Some? ==> |r.value| == 3
  {
    var a, b, c, d := Sextet(g[0]), Sextet(g[1]), Sextet(g[2]), Sextet(g[3]);
    if a.Some? && b.Some? && c.Some? && d.Some? then
      Some([a.value * 4 + b.value / 16, b.value % 16 * 16 + c.value / 4, c.value % 4 * 64 + d.value])
    else None
  }

  function DecodeEnd(g: Bytes): (r: Option<Bytes>)
    requires 0 < |g| < 4
    ensures r.Some? ==> |r.value| == |g| - 1 && |r.value| > 0
  {
    if |g| == 1 then None
    else
      var a, b := Sextet(g[0]), Sextet(g[1]);
      if a.None? || b.None? then None
      else if |g| == 2 then
        if b.value % 16 == 0 then Some([a.value * 4 + b.value / 16]) else None
      else
        var c := Sextet(g[2]);
        if c.Some? && c.value % 4 == 0 then
          Some([a.value * 4 + b.value / 16, b.value % 16 * 16 + c.value / 4])
        else None
  }

  function Join(a: Option<Bytes>, b: Option<Bytes>): Option<Bytes> {
    if a.Some? && b.Some? then Some(a.value + b.value) else None
  }

  lemma JoinAssoc(a: Option<Bytes>, b: Option<Bytes>, c: Option<Bytes>)
    ensures Join(Join(a, b), c) == Join(a, Join(b, c))
  {
    if a.Some? && b.Some? && c.Some? {
      assert (a.value + b.value) + c.value == a.value + (b.value + c.value);
    }
  }

  /** One group at a time. */
  lemma DecodeStep(chars: Bytes)
    requires |chars| >= 4
    ensures Decode(chars) == Join(DecodeGroup(chars[..4]), Decode(chars[4..]))
  {
  }

  lemma EmptyJoins(b: Bytes)
    ensures Join(Decode([]), Decode(b)) == Decode(b)
  {
    assert Decode(b).Some? ==> [] + Decode(b).value == Decode(b).value;
  }

  /** With a group in front, what splits still splits. */
  lemma SplitsStep(group: Option<Bytes>, front: Option<Bytes>, back: Option<Bytes>, rest: Option<Bytes>)
    requires rest == Join(front, back)
    ensures Join(group, rest) == Join(Join(group, front), back)
  {
    JoinAssoc(group, front, back);
  }

  lemma {:induction false} DecodeLength(a: Bytes)
    requires |a| % 4 == 0
    ensures Decode(a).Some? ==> |Decode(a).value| == |a| / 4 * 3
    decreases |a|
  {
    if a != [] {
      hide Decode, DecodeGroup;
      DecodeStep(a);
      DecodeLength(a[4..]);
      assert |a[4..]| == |a| - 4;
    }
  }

  /** Whole groups decode on their own. */
  lemma {:induction false} DecodeSplits(a: Bytes, b: Bytes)
    requires |a| % 4 == 0
    ensures Decode(a + b) == Join(Decode(a), Decode(b))
    ensures Decode(a).Some? ==> |Decode(a).value| == |a| / 4 * 3
    decreases |a|
  {
    hide Decode, DecodeGroup, Join;
    DecodeLength(a);
    if a == [] {
      EmptyJoins(b);
      assert a + b == b;
    } else {
      DecodeStep(a);
      DecodeStep(a + b);
      DecodeSplits(a[4..], b);
      assert (a + b)[..4] == a[..4] && (a + b)[4..] == a[4..] + b;
      SplitsStep(DecodeGroup(a[..4]), Decode(a[4..]), Decode(b), Decode(a[4..] + b));
    }
  }

  lemma DecodeNonEmpty(chars: Bytes)
    requires chars != [] && Decode(chars).Some?
    ensures Decode(chars).value != []
  {
  }

  ghost function Character(v: nat): (c: byte)
    requires v < 64
    ensures Sextet(c) == Some(v)
  {
    if v < 26 then 65 + v else if v < 52 then 97 + v - 26 else if v < 62 then 48 + v - 52
    else if v == 62 then 45 else 95
  }

  /** The text of some bytes: three bytes to four characters. */
  ghost function Encode(b: Bytes): (c: Bytes)
    decreases |b|
  {
    if b == [] then []
    else if |b| == 1 then [Character(b[0] / 4), Character(b[0] % 4 * 16)]
    else if |b| == 2 then
      [Character(b[0] / 4), Character(b[0] % 4 * 16 + b[1] / 16), Character(b[1] % 16 * 4)]
    else
      [Character(b[0] / 4), Character(b[0] % 4 * 16 + b[1] / 16),
       Character(b[1] % 16 * 4 + b[2] / 64), Character(b[2] % 64)] + Encode(b[3..])
  }

  lemma SextetOnce(c: byte)
    requires Sextet(c).Some?
    ensures Character(Sextet(c).value) == c
  {
  }

  /** Bytes come back from their sextets. */
  lemma JoinBits(x: byte, y: byte, z: byte)
    ensures x / 4 < 64 && x % 4 * 16 + y / 16 < 64 && y % 16 * 4 + z / 64 < 64 && z % 64 < 64
    ensures x / 4 * 4 + (x % 4 * 16 + y / 16) / 16 == x
    ensures (x % 4 * 16 + y / 16) % 16 * 16 + (y % 16 * 4 + z / 64) / 4 == y
    ensures (y % 16 * 4 + z / 64) % 4 * 64 + z % 64 == z
  {
    assert (x % 4 * 16 + y / 16) / 16 == x % 4;
    assert (x % 4 * 16 + y / 16) % 16 == y / 16;
    assert (y % 16 * 4 + z / 64) / 4 == y % 16;
    assert (y % 16 * 4 + z / 64) % 4 == z / 64;
  }

  lemma GroupOf(p: nat, q: nat, r: nat, t: nat)
    requires p < 64 && q < 64 && r < 64 && t < 64
    ensures p * 4 + q / 16 < 256 && q % 16 * 16 + r / 4 < 256 && r % 4 * 64 + t < 256
    ensures DecodeGroup([Character(p), Character(q), Character(r), Character(t)])
         == Some([p * 4 + q / 16, q % 16 * 16 + r / 4, r % 4 * 64 + t])
  {
    hide Sextet, Character;
  }

  lemma EncodeThree(x: byte, y: byte, z: byte, rest: Bytes)
    ensures x / 4 < 64 && x % 4 * 16 + y / 16 < 64 && y % 16 * 4 + z / 64 < 64 && z % 64 < 64
    ensures Encode([x, y, z] + rest)
         == [Character(x / 4), Character(x % 4 * 16 + y / 16), Character(y % 16 * 4 + z / 64), Character(z % 64)] + Encode(rest)
  {
    hide Character;
    JoinBits(x, y, z);
    assert ([x, y, z] + rest)[3..] == rest;
  }

  lemma GroupDecodes(b: Bytes)
    requires |b| >= 3
    ensures |Encode(b)| >= 4 && DecodeGroup(Encode(b)[..4]) == Some([b[0], b[1], b[2]])
    ensures Encode(b)[4..] == Encode(b[3..])
  {
    hide Character, DecodeGroup, Encode;
    var x, y, z := b[0], b[1], b[2];
    assert b == [x, y, z] + b[3..];
    JoinBits(x, y, z);
    EncodeThree(x, y, z, b[3..]);
    GroupOf(x / 4, x % 4 * 16 + y / 16, y % 16 * 4 + z / 64, z % 64);
    assert Encode(b)[..4]
        == [Character(x / 4), Character(x % 4 * 16 + y / 16), Character(y % 16 * 4 + z / 64), Character(z % 64)];
  }

  lemma EndDecodes(b: Bytes)
    requires 0 < |b| < 3
    ensures 0 < |Encode(b)| < 4 && DecodeEnd(Encode(b)) == Some(b)
  {
    hide Sextet, Character;
    JoinBits(b[0], if |b| > 1 then b[1] else 0, 0);
    assert b == if |b| == 1 then [b[0]] else [b[0], b[1]];
  }

  /** Decoding accepts exactly the texts of some bytes, and gives those bytes back. */
  lemma {:induction false} DecodeInvertsEncode(b: Bytes)
    ensures Decode(Encode(b)) == Some(b)
    decreases |b|
  {
    hide Encode, DecodeGroup, DecodeEnd;
    if b == [] {
      EncodeNothing();
    } else if |b| < 3 {
      EndDecodes(b);
    } else {
      DecodeInvertsEncode(b[3..]);
      GroupDecodes(b);
      assert b == [b[0], b[1], b[2]] + b[3..];
    }
  }

  /** Six bits and two bits, then four and four, make two bytes and come apart again. */
  lemma SplitBits(a: nat, b: nat, c: nat, d: nat)
    requires a < 64 && b < 64 && c < 64 && d < 64
    ensures (a * 4 + b / 16) / 4 == a
    ensures (a * 4 + b / 16) % 4 * 16 + (b % 16 * 16 + c / 4) / 16 == b
    ensures (b % 16 * 16 + c / 4) % 16 * 4 + (c % 4 * 64 + d) / 64 == c
    ensures (c % 4 * 64 + d) % 64 == d
  {
    assert (b % 16 * 16 + c / 4) / 16 == b % 16;
    assert (c % 4 * 64 + d) / 64 == c % 4;
  }

  lemma GroupEncodes(g: Bytes, rest: Bytes)
    requires |g| == 4 && DecodeGroup(g).Some?
    ensures Encode(DecodeGroup(g).value + rest) == g + Encode(rest)
  {
    hide Sextet, Character;
    var b := DecodeGroup(g).value + rest;
    var s, t, u, v := Sextet(g[0]).value, Sextet(g[1]).value, Sextet(g[2]).value, Sextet(g[3]).value;
    assert b[0] == s * 4 + t / 16 && b[1] == t % 16 * 16 + u / 4 && b[2] == u % 4 * 64 + v;
    SplitBits(s, t, u, v);
    SextetOnce(g[0]);
    SextetOnce(g[1]);
    SextetOnce(g[2]);
    SextetOnce(g[3]);
    assert b[3..] == rest;
    assert g == [g[0], g[1], g[2], g[3]];
  }

  lemma EndEncodes(g: Bytes)
    requires 0 < |g| < 4 && DecodeEnd(g).Some?
    ensures Encode(DecodeEnd(g).value) == g
  {
    hide Sextet, Character;
    var b := DecodeEnd(g).value;
    var s, t := Sextet(g[0]).value, Sextet(g[1]).value;
    SextetOnce(g[0]);
    SextetOnce(g[1]);
    if |g| == 3 {
      var u := Sextet(g[2]).value;
      assert b[0] == s * 4 + t / 16 && b[1] == t % 16 * 16 + u / 4;
      SplitBits(s, t, u, 0);
      SextetOnce(g[2]);
      assert g == [g[0], g[1], g[2]];
    } else {
      assert b[0] == s * 4 + t / 16;
      SplitBits(s, t, 0, 0);
      assert g == [g[0], g[1]];
    }
  }

  lemma {:induction false} EncodeInvertsDecode(chars: Bytes)
    requires Decode(chars).Some?
    ensures Encode(Decode(chars).value) == chars
    decreases |chars|
  {
    hide Encode, DecodeGroup, DecodeEnd;
    if chars == [] {
      EncodeNothing();
    } else if |chars| < 4 {
      EndEncodes(chars);
    } else {
      EncodeInvertsDecode(chars[4..]);
      GroupEncodes(chars[..4], Decode(chars[4..]).value);
      assert chars == chars[..4] + chars[4..];
    }
  }

  lemma EncodeNothing()
    ensures Encode([]) == []
  {
  }

  // ----- what the text says, digit by digit -----

  /** The alphabet of section 5 of RFC 4648, in the order of the values. */
  const CAPITALS := "ABCDEFGHIJKLMNOPQRSTUVWXYZ"
  const SMALLS := "abcdefghijklmnopqrstuvwxyz"
  const NUMERALS := "0123456789"
  const ALPHABET := CAPITALS + SMALLS + NUMERALS + "-_"

  const LOWER_DIGITS := "0123456789abcdef"
  const UPPER_DIGITS := "0123456789ABCDEF"

  lemma CapitalAt(v: nat)
    requires v < 26
    ensures CAPITALS[v] as nat == 65 + v
  {
  }

  lemma SmallAt(v: nat)
    requires v < 26
    ensures SMALLS[v] as nat == 97 + v
  {
  }

  lemma NumeralAt(v: nat)
    requires v < 10
    ensures NUMERALS[v] as nat == 48 + v
  {
  }

  lemma AlphabetAt(v: nat)
    requires v < 64
    ensures |ALPHABET| == 64 && ALPHABET[v] as nat < 256
    ensures Sextet(ALPHABET[v] as nat) == Some(v)
  {
    if v < 26 {
      CapitalAt(v);
      assert ALPHABET[v] == CAPITALS[v];
    } else if v < 52 {
      SmallAt(v - 26);
      assert ALPHABET[v] == SMALLS[v - 26];
    } else if v < 62 {
      NumeralAt(v - 52);
      assert ALPHABET[v] == NUMERALS[v - 52];
    } else {
      assert ALPHABET[v] == "-_"[v - 62];
    }
  }

  /** A character has a value exactly if it is in the alphabet, and then its place there. */
  lemma SextetIsPlace(c: byte, v: nat)
    ensures Sextet(c) == Some(v) <==> v < 64 && c == ALPHABET[v] as nat
  {
    if v < 64 {
      AlphabetAt(v);
    }
  }

  /** A hexadecimal digit has its place among the digits, in either case. */
  lemma HexIsPlace(c: byte, v: nat)
    ensures HexDigit(c) == Some(v) <==> v < 16 && (c == LOWER_DIGITS[v] as nat || c == UPPER_DIGITS[v] as nat)
  {
  }

  /** Four hexadecimal digits are their number, if all four are digits. */
  lemma HexIsNumber(b: Bytes)
    requires |b| == 4
    ensures HexValue(b).Some? <==>
              HexDigit(b[0]).Some? && HexDigit(b[1]).Some? && HexDigit(b[2]).Some? && HexDigit(b[3]).Some?
    ensures HexValue(b).Some? ==>
              HexValue(b).value == HexDigit(b[0]).value * 4096 + HexDigit(b[1]).value * 256
                                   + HexDigit(b[2]).value * 16 + HexDigit(b[3]).value
  {
    hide HexDigit;
    assert b[..3][..2] == b[..2] && b[..2][..1] == b[..1] && b[..1][..0] == [];
    assert HexValue(b[..1]) == HexDigit(b[0]);
    assert HexValue(b[..2]).Some? ==> HexValue(b[..2]).value == HexDigit(b[0]).value * 16 + HexDigit(b[1]).value;
    assert b[..3][2] == b[2];
  }

  /** The characters after a backslash and what they stand for, by section 7 of RFC 8259. */
  const ESCAPED := "\"\\/bfnrt"
  const CODES: Bytes := [34, 92, 47, 8, 12, 10, 13, 9]

  lemma TokenIs(raw: Bytes, t: Token)
    requires raw != []
    ensures NextToken(raw) == Some(t) <==>
              || (raw[0] != '\\' as nat && t == Token(raw[0], 1))
              || (raw[0] == '\\' as nat && |raw| >= 2 &&
                  exists i | 0 <= i < 8 :: raw[1] == ESCAPED[i] as nat && t == Token(CODES[i], 2))
              || (raw[0] == '\\' as nat && |raw| >= 6 && raw[1] == 'u' as nat && t.width == 6
                  && HexValue(raw[2..6]) == Some(t.code))
  {
    hide HexValue;
    if raw[0] == BACKSLASH && |raw| >= 2 {
      assert forall i | 0 <= i < 8 :: raw[1] == ESCAPED[i] as nat ==> raw[1] != 117 && NextToken(raw) == Some(Token(CODES[i], 2));
      if raw[1] != 117 && NextToken(raw).Some? {
        EscapePlace(raw[1]);
      }
    }
  }

  lemma EscapePlace(c: byte)
    ensures c in [34, 92, 47, 98, 102, 110, 114, 116] ==> exists i | 0 <= i < 8 :: c == ESCAPED[i] as nat
  {
    assert ESCAPED[0] == '"' && ESCAPED[1] == '\\' && ESCAPED[2] == '/' && ESCAPED[3] == 'b';
    assert ESCAPED[4] == 'f' && ESCAPED[5] == 'n' && ESCAPED[6] == 'r' && ESCAPED[7] == 't';
  }

  /** Digits read as one number. */
  ghost function InBase(base: nat, digits: seq<nat>): nat {
    if digits == [] then 0 else InBase(base, digits[..|digits| - 1]) * base + digits[|digits| - 1]
  }

  ghost function Power(base: nat, n: nat): nat {
    if n == 0 then 1 else Power(base, n - 1) * base
  }

  /** Every character is in the alphabet. */
  ghost predicate InAlphabet(chars: Bytes) {
    forall i | 0 <= i < |chars| :: Sextet(chars[i]).Some?
  }

  /** The values of the characters. */
  ghost function Values(chars: Bytes): (v: seq<nat>)
    requires InAlphabet(chars)
    ensures |v| == |chars|
  {
    if chars == [] then [] else Values(chars[..|chars| - 1]) + [Sextet(chars[|chars| - 1]).value]
  }

  /** The values are the places in the alphabet. */
  lemma {:induction false} ValuesArePlaces(chars: Bytes)
    requires InAlphabet(chars)
    ensures forall i | 0 <= i < |chars| :: Values(chars)[i] < 64 && chars[i] == ALPHABET[Values(chars)[i]] as nat
  {
    if chars != [] {
      var n := |chars| - 1;
      ValuesArePlaces(chars[..n]);
      SextetIsPlace(chars[n], Sextet(chars[n]).value);
      hide Sextet;
      assert Values(chars) == Values(chars[..n]) + [Sextet(chars[n]).value];
      hide Values;
      forall i | 0 <= i < |chars|
        ensures Values(chars)[i] < 64 && chars[i] == ALPHABET[Values(chars)[i]] as nat
      {
        assert i < n ==> Values(chars)[i] == Values(chars[..n])[i] && chars[i] == chars[..n][i];
      }
    }
  }

  /** The bits of the characters beyond those of the bytes, as a factor. */
  ghost function Unused(n: nat): nat {
    if n % 4 == 2 then 16 else if n % 4 == 3 then 4 else 1
  }

  /** Regrouping 24 bits. */
  lemma SameBits(a: nat, b: nat, c: nat, d: nat)
    ensures ((a * 64 + b) * 64 + c) * 64 + d
         == ((a * 4 + b / 16) * 256 + (b % 16 * 16 + c / 4)) * 256 + (c % 4 * 64 + d)
  {
    assert b == b / 16 * 16 + b % 16 && c == c / 4 * 4 + c % 4;
  }

  lemma GroupInAlphabet(g: Bytes)
    requires |g| == 4
    ensures DecodeGroup(g).Some? <==> InAlphabet(g)
  {
    hide Sextet;
    assert InAlphabet(g) <==> Sextet(g[0]).Some? && Sextet(g[1]).Some? && Sextet(g[2]).Some? && Sextet(g[3]).Some?;
  }

  lemma GroupBytes(g: Bytes, a: nat, b: nat, c: nat, d: nat)
    requires |g| == 4
    requires Sextet(g[0]) == Some(a) && Sextet(g[1]) == Some(b) && Sextet(g[2]) == Some(c) && Sextet(g[3]) == Some(d)
    ensures var bytes: seq<nat> := [a * 4 + b / 16, b % 16 * 16 + c / 4, c % 4 * 64 + d];
            DecodeGroup(g).Some? && DecodeGroup(g).value == bytes
  {
    hide Sextet;
  }

  /** Four characters are three bytes: the same number. */
  lemma GroupNumber(g: Bytes)
    requires |g| == 4
    ensures DecodeGroup(g).Some? <==> InAlphabet(g)
    ensures InAlphabet(g) ==> InBase(64, Values(g)) == InBase(256, DecodeGroup(g).value)
  {
    hide Sextet, InBase, Values, DecodeGroup;
    GroupInAlphabet(g);
    if InAlphabet(g) {
      var a, b, c, d := Sextet(g[0]).value, Sextet(g[1]).value, Sextet(g[2]).value, Sextet(g[3]).value;
      FourValues(g);
      GroupBytes(g, a, b, c, d);
      FourDigits(64, a, b, c, d);
      ThreeDigits(256, a * 4 + b / 16, b % 16 * 16 + c / 4, c % 4 * 64 + d);
      SameBits(a, b, c, d);
    }
  }

  lemma FourValues(g: Bytes)
    requires |g| == 4 && InAlphabet(g)
    ensures Values(g) == [Sextet(g[0]).value, Sextet(g[1]).value, Sextet(g[2]).value, Sextet(g[3]).value]
  {
    hide Sextet;
    assert g[..3][..2] == g[..2] && g[..2][..1] == g[..1] && g[..1][..0] == [];
    assert Values(g[..1]) == [Sextet(g[0]).value];
    assert Values(g[..2]) == [Sextet(g[0]).value, Sextet(g[1]).value];
    assert Values(g[..3]) == [Sextet(g[0]).value, Sextet(g[1]).value, Sextet(g[2]).value];
  }

  lemma FewDigits(base: nat, a: nat, b: nat)
    ensures InBase(base, [a]) == a && InBase(base, [a, b]) == a * base + b
  {
    assert [a][..0] == [] && [a, b][..1] == [a];
  }

  lemma ThreeDigits(base: nat, a: nat, b: nat, c: nat)
    ensures InBase(base, [a, b, c]) == (a * base + b) * base + c
  {
    FewDigits(base, a, b);
    assert [a, b, c][..2] == [a, b];
  }

  lemma FourDigits(base: nat, a: nat, b: nat, c: nat, d: nat)
    ensures InBase(base, [a, b, c, d]) == ((a * base + b) * base + c) * base + d
  {
    ThreeDigits(base, a, b, c);
    assert [a, b, c, d][..3] == [a, b, c];
  }

  lemma EndInAlphabet(g: Bytes)
    requires 0 < |g| < 4
    ensures DecodeEnd(g).Some? ==> |g| > 1 && InAlphabet(g)
  {
    hide Sextet;
  }

  lemma EndOfTwo(g: Bytes, a: nat, b: nat)
    requires |g| == 2 && Sextet(g[0]) == Some(a) && Sextet(g[1]) == Some(b)
    ensures DecodeEnd(g).Some? <==> b % 16 == 0
    ensures b % 16 == 0 ==> var bytes: seq<nat> := [a * 4 + b / 16]; DecodeEnd(g).value == bytes
  {
    hide Sextet;
  }

  lemma EndOfThree(g: Bytes, a: nat, b: nat, c: nat)
    requires |g| == 3 && Sextet(g[0]) == Some(a) && Sextet(g[1]) == Some(b) && Sextet(g[2]) == Some(c)
    ensures DecodeEnd(g).Some? <==> c % 4 == 0
    ensures c % 4 == 0 ==> var bytes: seq<nat> := [a * 4 + b / 16, b % 16 * 16 + c / 4]; DecodeEnd(g).value == bytes
  {
    hide Sextet;
  }

  /** Two or three characters at the end: the bytes are their number without the unused bits, which are zero. */
  lemma EndNumber(g: Bytes)
    requires 0 < |g| < 4
    ensures DecodeEnd(g).Some? <==> |g| > 1 && InAlphabet(g) && InBase(64, Values(g)) % Unused(|g|) == 0
    ensures DecodeEnd(g).Some? ==> InBase(64, Values(g)) == InBase(256, DecodeEnd(g).value) * Unused(|g|)
  {
    hide Sextet, InBase, Values, DecodeEnd;
    EndInAlphabet(g);
    if |g| > 1 && InAlphabet(g) {
      var a, b := Sextet(g[0]).value, Sextet(g[1]).value;
      EndValues(g);
      if |g| == 2 {
        EndOfTwo(g, a, b);
        FewDigits(64, a, b);
        FewDigits(256, a * 4 + b / 16, 0);
        TwoLeft(a, b);
      } else {
        var c := Sextet(g[2]).value;
        EndOfThree(g, a, b, c);
        ThreeDigits(64, a, b, c);
        FewDigits(256, a * 4 + b / 16, b % 16 * 16 + c / 4);
        ThreeLeft(a, b, c);
      }
    }
  }

  lemma TwoLeft(a: nat, b: nat)
    ensures (a * 64 + b) % 16 == 0 <==> b % 16 == 0
    ensures b % 16 == 0 ==> a * 64 + b == (a * 4 + b / 16) * 16
  {
    assert a * 64 + b == (a * 4 + b / 16) * 16 + b % 16;
    DivUnique(a * 64 + b, 16, a * 4 + b / 16, b % 16);
  }

  lemma ThreeLeft(a: nat, b: nat, c: nat)
    ensures ((a * 64 + b) * 64 + c) % 4 == 0 <==> c % 4 == 0
    ensures c % 4 == 0 ==> (a * 64 + b) * 64 + c == ((a * 4 + b / 16) * 256 + (b % 16 * 16 + c / 4)) * 4
  {
    assert b == b / 16 * 16 + b % 16 && c == c / 4 * 4 + c % 4;
    var q := (a * 4 + b / 16) * 256 + (b % 16 * 16 + c / 4);
    assert (a * 64 + b) * 64 + c == q * 4 + c % 4;
    DivUnique((a * 64 + b) * 64 + c, 4, q, c % 4);
  }

  lemma EndValues(g: Bytes)
    requires 1 < |g| < 4 && InAlphabet(g)
    ensures Values(g)[..2] == [Sextet(g[0]).value, Sextet(g[1]).value]
    ensures |g| == 3 ==> Values(g) == [Sextet(g[0]).value, Sextet(g[1]).value, Sextet(g[2]).value]
    ensures |g| == 2 ==> Values(g) == [Sextet(g[0]).value, Sextet(g[1]).value]
  {
    hide Sextet;
    assert g[..2][..1] == g[..1] && g[..1][..0] == [];
    assert Values(g[..1]) == [Sextet(g[0]).value];
    assert Values(g[..2]) == [Sextet(g[0]).value, Sextet(g[1]).value];
    assert |g| == 2 ==> g[..2] == g;
  }

  // ----- longer texts -----

  lemma {:induction false} BaseConcat(base: nat, a: seq<nat>, b: seq<nat>)
    ensures InBase(base, a + b) == InBase(base, a) * Power(base, |b|) + InBase(base, b)
    decreases |b|
  {
    if b == [] {
      assert a + b == a;
    } else {
      var front, last := b[..|b| - 1], b[|b| - 1];
      BaseConcat(base, a, front);
      assert (a + b)[..|a + b| - 1] == a + front;
      ShiftProduct(InBase(base, a), Power(base, |front|), InBase(base, front), base);
    }
  }

  lemma ShiftProduct(x: nat, p: nat, y: nat, base: nat)
    ensures (x * p + y) * base == x * (p * base) + y * base
  {
  }

  /** Four characters weigh as much as three bytes. */
  lemma {:induction false} SameWeight(n: nat)
    requires n % 4 != 1
    ensures Power(64, n) == Power(256, n * 3 / 4) * Unused(n)
    decreases n
  {
    hide Power, Unused;
    if n >= 4 {
      UnusedBack(n);
      SameWeight(n - 4);
      PowerFour(n - 4);
      PowerThree((n - 4) * 3 / 4);
      Weigh(Power(256, (n - 4) * 3 / 4), Unused(n));
    } else {
      ShortWeight(n);
    }
  }

  lemma ShortWeight(n: nat)
    requires n < 4 && n != 1
    ensures Power(64, n) == Power(256, n * 3 / 4) * Unused(n)
  {
    assert Power(64, 1) == 64 && Power(256, 1) == 256;
    assert Power(64, 2) == Power(64, 1) * 64 && Power(256, 2) == Power(256, 1) * 256;
    assert Power(64, 3) == Power(64, 2) * 64;
  }

  lemma Weigh(p: nat, u: nat)
    ensures (p * u) * 16777216 == (p * 16777216) * u
  {
  }

  lemma PowerFour(n: nat)
    ensures Power(64, n + 4) == Power(64, n) * 16777216
  {
    assert Power(64, n + 1) == Power(64, n) * 64;
    assert Power(64, n + 2) == Power(64, n + 1) * 64;
    assert Power(64, n + 3) == Power(64, n + 2) * 64;
  }

  lemma PowerThree(n: nat)
    ensures Power(256, n + 3) == Power(256, n) * 16777216
  {
    assert Power(256, n + 1) == Power(256, n) * 256;
    assert Power(256, n + 2) == Power(256, n + 1) * 256;
  }

  lemma {:induction false} ValuesConcat(a: Bytes, b: Bytes)
    requires InAlphabet(a) && InAlphabet(b)
    ensures InAlphabet(a + b) && Values(a + b) == Values(a) + Values(b)
    decreases |b|
  {
    if b == [] {
      assert a + b == a;
    } else {
      hide Sextet;
      ValuesConcat(a, b[..|b| - 1]);
      assert (a + b)[..|a + b| - 1] == a + b[..|b| - 1];
    }
  }

  lemma AlphabetSplits(chars: Bytes)
    requires |chars| >= 4
    ensures InAlphabet(chars) <==> InAlphabet(chars[..4]) && InAlphabet(chars[4..])
  {
    hide Sextet;
    assert forall i | 4 <= i < |chars| :: chars[i] == chars[4..][i - 4];
  }

  lemma MultipleAdds(a: nat, p: nat, u: nat, b: nat)
    requires u > 0
    ensures (a * (p * u) + b) % u == b % u
  {
    assert a * (p * u) == (a * p) * u;
    ModAdds(a * p, u, b);
  }

  lemma {:induction false} ModAdds(q: nat, u: nat, b: nat)
    requires u > 0
    ensures (q * u + b) % u == b % u
    decreases q
  {
    if q > 0 {
      ModAdds(q - 1, u, b);
      assert q * u + b == ((q - 1) * u + b) + u;
      OneMore((q - 1) * u + b, u);
    }
  }

  lemma OneMore(x: nat, u: nat)
    requires u > 0
    ensures (x + u) % u == x % u
  {
    assert x + u == (x / u + 1) * u + x % u;
    DivUnique(x + u, u, x / u + 1, x % u);
  }

  /** A number with digits in front, in the one base and in the other. */
  lemma NumbersGrow(all: nat, front: nat, weight: nat, rest: nat, p: nat, u: nat)
    requires u > 0 && all == front * weight + rest && weight == p * u
    ensures all % u == rest % u
    ensures forall bytes: nat :: rest == bytes * u ==> all == (front * p + bytes) * u
  {
    MultipleAdds(front, p, u, rest);
    forall bytes: nat | rest == bytes * u
      ensures all == (front * p + bytes) * u
    {
      SameFactor(front, p, u, bytes);
    }
  }

  lemma SameFactor(a: nat, p: nat, u: nat, b: nat)
    ensures a * (p * u) + b * u == (a * p + b) * u
  {
    assert a * (p * u) == (a * p) * u;
  }

  /** The text decodes exactly if its characters are in the alphabet, no single one is left over and the unused bits
      are zero; the characters read as one number are then the bytes read as one number, but for the unused bits. */
  ghost predicate ReadsAsNumber(chars: Bytes, bytes: Option<Bytes>) {
    && (bytes.Some? <==> InAlphabet(chars) && |chars| % 4 != 1 && InBase(64, Values(chars)) % Unused(|chars|) == 0)
    && (bytes.Some? ==> |bytes.value| == |chars| * 3 / 4
                        && InBase(64, Values(chars)) == InBase(256, bytes.value) * Unused(|chars|))
  }

  /** Decoding is reading numbers. */
  lemma {:induction false} DecodeIsNumber(chars: Bytes)
    ensures ReadsAsNumber(chars, Decode(chars))
    decreases |chars|
  {
    if chars != [] {
      hide ReadsAsNumber, Decode;
      if |chars| < 4 {
        ShortNumber(chars);
      } else {
        DecodeIsNumber(chars[4..]);
        LongNumber(chars);
      }
    }
  }

  lemma ShortNumber(chars: Bytes)
    requires 0 < |chars| < 4
    ensures ReadsAsNumber(chars, Decode(chars))
  {
    hide Decode, DecodeEnd, Values, Sextet, InAlphabet, InBase, Unused;
    EndNumber(chars);
    ShortDecode(chars);
  }

  lemma LongNumber(chars: Bytes)
    requires |chars| >= 4 && ReadsAsNumber(chars[4..], Decode(chars[4..]))
    ensures ReadsAsNumber(chars, Decode(chars))
  {
    hide Decode, DecodeGroup, Values, Sextet, InAlphabet, InBase, Power, Unused;
    DecodeStep(chars);
    GroupNumber(chars[..4]);
    AlphabetSplits(chars);
    UnusedBack(|chars|);
    if InAlphabet(chars) && |chars| % 4 != 1 {
      GroupInFront(chars);
      if Decode(chars[4..]).Some? {
        BaseConcat(256, DecodeGroup(chars[..4]).value, Decode(chars[4..]).value);
      }
    }
  }

  lemma ShortDecode(chars: Bytes)
    requires 0 < |chars| < 4
    ensures Decode(chars) == DecodeEnd(chars)
    ensures DecodeEnd(chars).Some? ==> |chars| > 1 && |DecodeEnd(chars).value| == |chars| * 3 / 4
  {
  }

  lemma UnusedBack(n: nat)
    requires n >= 4
    ensures Unused(n - 4) == Unused(n) > 0 && (n - 4) % 4 == n % 4 && (n - 4) * 3 / 4 + 3 == n * 3 / 4
  {
  }

  lemma GroupInFront(chars: Bytes)
    requires |chars| >= 4 && |chars| % 4 != 1 && InAlphabet(chars) && InAlphabet(chars[..4]) && InAlphabet(chars[4..])
    ensures InBase(64, Values(chars)) % Unused(|chars|) == InBase(64, Values(chars[4..])) % Unused(|chars|)
    ensures forall bytes: nat :: InBase(64, Values(chars[4..])) == bytes * Unused(|chars|) ==>
              InBase(64, Values(chars))
              == (InBase(64, Values(chars[..4])) * Power(256, (|chars| - 4) * 3 / 4) + bytes) * Unused(|chars|)
  {
    hide InBase, Values, Power, InAlphabet, Unused;
    UnusedBack(|chars|);
    ValuesConcat(chars[..4], chars[4..]);
    assert chars[..4] + chars[4..] == chars;
    BaseConcat(64, Values(chars[..4]), Values(chars[4..]));
    SameWeight(|chars| - 4);
    NumbersGrow(InBase(64, Values(chars)), InBase(64, Values(chars[..4])), Power(64, |chars| - 4), InBase(64, Values(chars[4..])),
                Power(256, (|chars| - 4) * 3 / 4), Unused(|chars|));
  }

  /** What the payload of a JSON item means. */
  function DecodeText(raw: Bytes): Option<Bytes> {
    match Unescape(raw)
    case Some(chars) => Decode(chars)
    case None => None
  }

  // ----- reading a bounded number of characters -----

  /** The next characters of the text, at most `n`, and where they end. */
  ghost function Take(raw: Bytes, n: nat): Option<(Bytes, nat)>
    decreases n
  {
    if n == 0 || raw == [] then Some(([], 0))
    else
      match NextToken(raw)
      case None => None
      case Some(t) =>
        match Take(raw[t.width..], n - 1)
        case None => None
        case Some((chars, width)) => Some(([t.code] + chars, t.width + width))
  }

  /** Cutting the text between two characters splits its meaning. */
  lemma {:induction false} TakeSplits(raw: Bytes, n: nat)
    requires Take(raw, n).Some?
    ensures TakeBounds(raw, n, Take(raw, n).value.0, Take(raw, n).value.1)
    ensures var (chars, width) := Take(raw, n).value;
            Unescape(raw) == Join(Some(chars), Unescape(raw[width..]))
    decreases n
  {
    hide NextToken;
    if n == 0 || raw == [] {
      assert raw[0..] == raw;
      JoinNothing(Unescape(raw));
    } else {
      var t := NextToken(raw).value;
      var (chars, width) := Take(raw[t.width..], n - 1).value;
      TakeSplits(raw[t.width..], n - 1);
      assert raw[t.width..][width..] == raw[t.width + width..];
      JoinOne(t.code, chars, Unescape(raw[t.width + width..]));
    }
  }

  /** What was read is bounded, and short only at the end of the text. */
  ghost predicate TakeBounds(raw: Bytes, n: nat, chars: Bytes, width: nat) {
    && |chars| <= width <= |raw| && width <= 6 * |chars|
    && |chars| <= n
    && (|chars| < n ==> width == |raw|)
    && (raw != [] && n > 0 ==> chars != [])
  }

  lemma JoinNothing(a: Option<Bytes>)
    ensures Join(Some([]), a) == a
  {
    if a.Some? {
      assert [] + a.value == a.value;
    }
  }

  lemma JoinOne(c: byte, chars: Bytes, a: Option<Bytes>)
    ensures Join(Some([c] + chars), a) == Join(Some([c]), Join(Some(chars), a))
  {
    if a.Some? {
      assert [c] + (chars + a.value) == ([c] + chars) + a.value;
    }
  }

  /** Text whose characters can all be read can be read piecewise. */
  lemma {:induction false} TakeExists(raw: Bytes, n: nat)
    requires Unescape(raw).Some?
    ensures Take(raw, n).Some?
    decreases n
  {
    if n > 0 && raw != [] {
      TakeExists(raw[NextToken(raw).value.width..], n - 1);
    }
  }

  /** Two reads, one after the other. */
  ghost function TakeThen(first: Option<(Bytes, nat)>, second: Option<(Bytes, nat)>): Option<(Bytes, nat)> {
    if first.Some? && second.Some?
    then Some((first.value.0 + second.value.0, first.value.1 + second.value.1)) else None
  }

  lemma TakeThenAssoc(c: byte, w: nat, first: (Bytes, nat), second: Option<(Bytes, nat)>)
    ensures TakeThen(Some(([c] + first.0, w + first.1)), second)
         == TakeThen(Some(([c], w)), TakeThen(Some(first), second))
  {
    if second.Some? {
      assert [c] + (first.0 + second.value.0) == ([c] + first.0) + second.value.0;
    }
  }

  lemma TakeStep(raw: Bytes, n: nat)
    requires raw != [] && n > 0
    ensures Take(raw, n) == match NextToken(raw)
                            case None => None
                            case Some(t) => TakeThen(Some(([t.code], t.width)), Take(raw[t.width..], n - 1))
  {
    hide NextToken;
  }

  lemma TakeNothing(raw: Bytes, n: nat)
    ensures n == 0 || raw == [] ==> Take(raw, n) == Some(([], 0))
    ensures TakeThen(Some(([], 0)), Take(raw, n)) == Take(raw, n)
  {
    if Take(raw, n).Some? {
      assert [] + Take(raw, n).value.0 == Take(raw, n).value.0;
    }
  }

  /** Reading in two goes is reading in one. */
  lemma {:induction false} TakeMore(raw: Bytes, m: nat, n: nat)
    requires Take(raw, m).Some?
    ensures var (chars, width) := Take(raw, m).value;
            && width <= |raw|
            && (|chars| == m || width == |raw| ==> Take(raw, m + n) == TakeThen(Take(raw, m), Take(raw[width..], n)))
    decreases m
  {
    hide NextToken, Take;
    TakeSplits(raw, m);
    if m == 0 || raw == [] {
      assert raw[0..] == raw;
      TakeNothing(raw, m);
      TakeNothing(raw, n);
      TakeNothing(raw, m + n);
    } else {
      TakeStep(raw, m);
      TakeStep(raw, m + n);
      var t := NextToken(raw).value;
      var tail := raw[t.width..];
      TakeMore(tail, m - 1, n);
      var (chars, width) := Take(tail, m - 1).value;
      assert tail[width..] == raw[t.width + width..];
      TakeThenAssoc(t.code, t.width, (chars, width), Take(tail[width..], n));
    }
  }
}
