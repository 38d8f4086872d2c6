/** Unpadded standard base64 with strict decoding, as `base64.RawStdEncoding.Strict()` has it
    (RFC 4648 sections 3.2, 3.5 and 4). */
module Base64 {
  import opened Options

  type Byte = x: nat | x < 256
  type Sextet = x: nat | x < 64

  /** The alphabet of section 4. */
  function CharOf(v: Sextet): char {
    if v < 26 then 'A' + v as char
    else if v < 52 then 'a' + (v - 26) as char
    else if v < 62 then '0' + (v - 52) as char
    else if v == 62 then '+' else '/'
  }

  function ValueOf(c: char): Option<Sextet> {
    if 'A' <= c <= 'Z' then Some((c - 'A') as nat)
    else if 'a' <= c <= 'z' then Some((c - 'a') as nat + 26)
    else if '0' <= c <= '9' then Some((c - '0') as nat + 52)
    else if c == '+' then Some(62)
    else if c == '/' then Some(63)
    else None
  }

  /** Every character of the alphabet stands for one value, and back. */
  lemma AlphabetInverse(c: char, v: Sextet)
    ensures ValueOf(c) == Some(v) <==> c == CharOf(v)
    ensures CharOf(v) != '$' && CharOf(v) != '\r' && CharOf(v) != '\n'
  {
  }

  /** The values of a string, if all its characters are in the alphabet. */
  function Values(s: string): Option<seq<Sextet>> {
    if s == [] then Some([])
    else match (ValueOf(s[0]), Values(s[1..]))
      case (Some(v), Some(vs)) => Some([v] + vs)
      case _ => None
  }

  function Chars(vs: seq<Sextet>): (s: string)
    ensures |s| == |vs|
  {
    seq(|vs|, i requires 0 <= i < |vs| => CharOf(vs[i]))
  }

  lemma {:induction false} ValuesInverse(s: string, vs: seq<Sextet>)
    ensures Values(s) == Some(vs) <==> s == Chars(vs)
  {
    if s == [] {
      assert Chars(vs) == [] <==> vs == [];
    } else if vs == [] {
    } else {
      AlphabetInverse(s[0], vs[0]);
      ValuesInverse(s[1..], vs[1..]);
      assert Chars(vs)[1..] == Chars(vs[1..]);
      assert s == Chars(vs) <==> s[0] == Chars(vs)[0] && s[1..] == Chars(vs)[1..] by {
        if s[0] == Chars(vs)[0] && s[1..] == Chars(vs)[1..] {
          assert s == [s[0]] + s[1..] && Chars(vs) == [Chars(vs)[0]] + Chars(vs)[1..];
        }
      }
      assert [vs[0]] + vs[1..] == vs;
      if Values(s) == Some(vs) {
        assert Values(s).value[0] == vs[0] && Values(s).value[1..] == vs[1..];
      }
    }
  }

  /** Three bytes become four values; one or two left over become two or three, padded with zero bits. */
  function Split(b: seq<Byte>): seq<Sextet> {
    if |b| == 0 then []
    else if |b| == 1 then [b[0] / 4, b[0] % 4 * 16]
    else if |b| == 2 then [b[0] / 4, b[0] % 4 * 16 + b[1] / 16, b[1] % 16 * 4]
    else [b[0] / 4, b[0] % 4 * 16 + b[1] / 16, b[1] % 16 * 4 + b[2] / 64, b[2] % 64] + Split(b[3..])
  }

  /** The bytes that two neighbouring values hold part of. */
  function First(a: Sextet, b: Sextet): Byte { a * 4 + b / 16 }
  function Second(a: Sextet, b: Sextet): Byte { a % 16 * 16 + b / 4 }
  function Third(a: Sextet, b: Sextet): Byte { a % 4 * 64 + b }

  /** One value alone is corrupt, and so are padding bits that are not zero. */
  function Join(v: seq<Sextet>): Option<seq<Byte>> {
    if |v| == 0 then Some([])
    else if |v| == 1 then None
    else if |v| == 2 then if v[1] % 16 != 0 then None else Some([First(v[0], v[1])])
    else if |v| == 3 then
      if v[2] % 4 != 0 then None else Some([First(v[0], v[1]), Second(v[1], v[2])])
    else
      match Join(v[4..])
      case Some(rest) => Some([First(v[0], v[1]), Second(v[1], v[2]), Third(v[2], v[3])] + rest)
      case None => None
  }

  /** Cutting three bytes into four values loses nothing. */
  lemma CutAndJoin(x: Byte, y: Byte, z: Byte)
    ensures First(x / 4, x % 4 * 16 + y / 16) == x
    ensures Second(x % 4 * 16 + y / 16, y % 16 * 4 + z / 64) == y
    ensures Third(y % 16 * 4 + z / 64, z % 64) == z
  {
  }

  /** The padding bits of the last value are zero. */
  lemma PaddingIsZero(x: Byte)
    ensures x % 4 * 16 % 16 == 0 && x % 16 * 4 % 4 == 0
  {
  }

  lemma JoinSplitOne(x: Byte)
    ensures Join(Split([x])) == Some([x])
  {
    CutAndJoin(x, 0, 0);
    PaddingIsZero(x);
    assert Split([x]) == [x / 4, x % 4 * 16];
  }

  lemma JoinSplitTwo(x: Byte, y: Byte)
    ensures Join(Split([x, y])) == Some([x, y])
  {
    CutAndJoin(x, y, 0);
    PaddingIsZero(y);
    assert Split([x, y]) == [x / 4, x % 4 * 16 + y / 16, y % 16 * 4];
  }

  lemma {:induction false} JoinSplit(b: seq<Byte>)
    ensures Join(Split(b)) == Some(b)
  {
    if |b| == 1 {
      JoinSplitOne(b[0]);
      assert b == [b[0]];
    } else if |b| == 2 {
      JoinSplitTwo(b[0], b[1]);
      assert b == [b[0], b[1]];
    } else if |b| >= 3 {
      CutAndJoin(b[0], b[1], b[2]);
      JoinSplit(b[3..]);
      assert Split(b)[4..] == Split(b[3..]);
      assert b == [b[0], b[1], b[2]] + b[3..];
    }
  }

  /** Joining four values into three bytes loses nothing. */
  lemma JoinAndCut(a: Sextet, b: Sextet, c: Sextet, d: Sextet)
    ensures First(a, b) / 4 == a
    ensures First(a, b) % 4 * 16 + Second(b, c) / 16 == b
    ensures Second(b, c) % 16 * 4 + Third(c, d) / 64 == c
    ensures Third(c, d) % 64 == d
    ensures b % 16 == 0 ==> First(a, b) % 4 * 16 == b
    ensures c % 4 == 0 ==> Second(b, c) % 16 * 4 == c
  {
  }

  lemma SplitJoinTwo(a: Sextet, b: Sextet)
    requires b % 16 == 0
    ensures Split([First(a, b)]) == [a, b]
  {
    JoinAndCut(a, b, 0, 0);
  }

  lemma SplitJoinThree(a: Sextet, b: Sextet, c: Sextet)
    requires c % 4 == 0
    ensures Split([First(a, b), Second(b, c)]) == [a, b, c]
  {
    JoinAndCut(a, b, c, 0);
  }

  lemma {:induction false} SplitJoinFour(a: Sextet, b: Sextet, c: Sextet, d: Sextet, rest: seq<Byte>)
    ensures Split([First(a, b), Second(b, c), Third(c, d)] + rest) == [a, b, c, d] + Split(rest)
  {
    JoinAndCut(a, b, c, d);
    assert ([First(a, b), Second(b, c), Third(c, d)] + rest)[3..] == rest;
  }

  lemma {:induction false} SplitJoin(v: seq<Sextet>)
    ensures Join(v).Some? ==> Split(Join(v).value) == v
  {
    if Join(v).Some? {
      if |v| == 2 {
        SplitJoinTwo(v[0], v[1]);
        assert v == [v[0], v[1]];
      } else if |v| == 3 {
        SplitJoinThree(v[0], v[1], v[2]);
        assert v == [v[0], v[1], v[2]];
      } else if |v| >= 4 {
        SplitJoin(v[4..]);
        SplitJoinFour(v[0], v[1], v[2], v[3], Join(v[4..]).value);
        assert v == [v[0], v[1], v[2], v[3]] + v[4..];
      }
    }
  }

  function Encode(b: seq<Byte>): string {
    Chars(Split(b))
  }

  function Decode(s: string): Option<seq<Byte>> {
    match Values(s)
    case Some(v) => Join(v)
    case None => None
  }

  /** Decoding succeeds with some bytes exactly on the one string that encodes them. */
  lemma DecodeIffEncoded(s: string, b: seq<Byte>)
    ensures Decode(s) == Some(b) <==> s == Encode(b)
  {
    ValuesInverse(s, Split(b));
    JoinSplit(b);
    if Decode(s) == Some(b) {
      SplitJoin(Values(s).value);
    }
  }

  /** No encoding contains a separator or a line break. */
  lemma EncodedIsClean(b: seq<Byte>)
    ensures '$' !in Encode(b) && '\r' !in Encode(b) && '\n' !in Encode(b)
  {
    forall i | 0 <= i < |Encode(b)| ensures Encode(b)[i] != '$' && Encode(b)[i] != '\r' && Encode(b)[i] != '\n' {
      AlphabetInverse('A', Split(b)[i]);
    }
  }

  // ---------- which characters ----------

  const UPPER := "ABCDEFGHIJKLMNOPQRSTUVWXYZ"
  const LOWER := "abcdefghijklmnopqrstuvwxyz"
  const OTHERS := "0123456789+/"

  lemma UpperInOrder(i: nat)
    requires i < 26
    ensures |UPPER| == 26 && UPPER[i] == CharOf(i)
  {
  }

  lemma LowerInOrder(i: nat)
    requires i < 26
    ensures |LOWER| == 26 && LOWER[i] == CharOf(26 + i)
  {
  }

  lemma OthersInOrder(i: nat)
    requires i < 12
    ensures |OTHERS| == 12 && OTHERS[i] == CharOf(52 + i)
  {
  }

  /** The characters are those of the alphabet of section 4, by value. */
  lemma AlphabetInOrder(v: Sextet)
    ensures |UPPER + LOWER + OTHERS| == 64 && CharOf(v) == (UPPER + LOWER + OTHERS)[v]
  {
    UpperInOrder(if v < 26 then v else 0);
    LowerInOrder(if 26 <= v < 52 then v - 26 else 0);
    OthersInOrder(if 52 <= v then v - 52 else 0);
  }

  /** The element at a place, zero past the end. */
  function At(s: seq<nat>, k: nat): nat {
    if k < |s| then s[k] else 0
  }

  /** Each group of three bytes, filled up with zeros at the end, is one number, and its four digits in base 64
      are the values. */
  lemma {:induction false} EncodingIsGrouped(b: seq<Byte>, i: nat)
    requires 3 * i < |b|
    ensures var v := Split(b);
      At(b, 3 * i) * 0x10000 + At(b, 3 * i + 1) * 0x100 + At(b, 3 * i + 2)
        == At(v, 4 * i) * 0x40000 + At(v, 4 * i + 1) * 0x1000 + At(v, 4 * i + 2) * 0x40 + At(v, 4 * i + 3)
  {
    if i > 0 {
      EncodingIsGrouped(b[3..], i - 1);
      assert Split(b)[4..] == Split(b[3..]);
    }
  }

  /** As many characters as it takes for six bits each. */
  lemma {:induction false} EncodedLength(b: seq<Byte>)
    ensures |Encode(b)| == (8 * |b| + 5) / 6
  {
    if |b| >= 3 {
      EncodedLength(b[3..]);
    }
  }

  /** The buffer size the decoder asks for. */
  function DecodedLen(n: nat): nat {
    n * 6 / 8
  }

  lemma {:induction false} JoinLength(v: seq<Sextet>)
    ensures Join(v).Some? ==> |Join(v).value| == DecodedLen(|v|)
  {
    if |v| >= 4 {
      JoinLength(v[4..]);
    }
  }

  /** A successful decoding fills its buffer exactly. */
  lemma DecodedFits(s: string)
    ensures Decode(s).Some? ==> |Decode(s).value| == DecodedLen(|s|)
  {
    if Values(s).Some? {
      ValuesInverse(s, Values(s).value);
      JoinLength(Values(s).value);
    }
  }
}
