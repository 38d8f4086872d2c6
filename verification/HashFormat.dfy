/** The Argon2id hash string: printed by CreateHash, read back by DecodeHash, compared by CheckHash. */
module HashFormat {
  import opened Options
  import opened Scanning
  import Base64

  type Bytes = seq<Base64.Byte>
  type UInt32 = x: nat | x < 0x1_0000_0000
  type UInt8 = x: nat | x < 0x100

  const VERSION := 19

  datatype Params = Params(memory: UInt32, iterations: UInt32, parallelism: UInt8, saltLength: UInt32,
                           keyLength: UInt32)

  datatype HashError = IncompatibleVariant | IncompatibleVersion | BadNumbers | InvalidHash | CorruptBase64

  datatype Decoded = Decoded(params: Params, salt: Bytes, key: Bytes)

  datatype Result<T> = Ok(value: T) | Err(error: HashError)

  /** The texts of the four numbers of a hash string. */
  datatype Fields = Fields(version: string, memory: string, iterations: string, parallelism: string)

  function WrittenTail(salt: Bytes, key: Bytes): string {
    Base64.Encode(salt) + ("$" + Base64.Encode(key))
  }

  function WrittenCosts(f: Fields, rest: string): string {
    "m=" + (f.memory + (",t=" + (f.iterations + (",p=" + (f.parallelism + ("$" + rest))))))
  }

  function WrittenVersion(f: Fields, rest: string): string {
    "v=" + (f.version + ("$" + rest))
  }

  /** A hash string around its numbers. */
  function Written(f: Fields, salt: Bytes, key: Bytes): string {
    "$argon2id$" + WrittenVersion(f, WrittenCosts(f, WrittenTail(salt, key)))
  }

  function Format(params: Params, salt: Bytes, key: Bytes): string {
    Written(Fields(Dec(VERSION), Dec(params.memory), Dec(params.iterations), Dec(params.parallelism)), salt, key)
  }

  /** Literal text of a scanning format. */
  function Skip(literal: string, s: string): Option<string> {
    if literal <= s then Some(s[|literal|..]) else None
  }

  /** `"v=%d$"`. */
  function ScanVersion(s: string): Option<(int, string)> {
    match Skip("v=", s)
    case None => None
    case Some(s1) =>
      match ScanInt(s1)
      case None => None
      case Some((v, s2)) =>
        match Skip("$", s2)
        case None => None
        case Some(s3) => Some((v, s3))
  }

  /** One `%d` of `"m=%d,t=%d,p=%d$"` with the literal text before it. */
  function ScanField(literal: string, bound: nat, s: string): (r: Option<(nat, string)>)
    ensures r.Some? ==> r.value.0 < bound
  {
    match Skip(literal, s)
    case None => None
    case Some(rest) => ScanUint(rest, bound)
  }

  datatype Costs = Costs(memory: UInt32, iterations: UInt32, parallelism: UInt8, rest: string)

  /** `"m=%d,t=%d,p=%d$"`. */
  function ScanCosts(s: string): Option<Costs> {
    match ScanField("m=", 0x1_0000_0000, s)
    case None => None
    case Some((m, s1)) =>
      match ScanField(",t=", 0x1_0000_0000, s1)
      case None => None
      case Some((t, s2)) =>
        match ScanField(",p=", 0x100, s2)
        case None => None
        case Some((p, s3)) =>
          match Skip("$", s3)
          case None => None
          case Some(s4) => Some(Costs(m, t, p, s4))
  }

  function IndexOf(s: string, c: char): (r: Option<nat>)
    ensures r.Some? ==> r.value < |s| && s[r.value] == c && c !in s[..r.value]
    ensures r.None? ==> c !in s
  {
    if s == [] then None
    else if s[0] == c then Some(0)
    else
      match IndexOf(s[1..], c)
      case Some(i) => Some(i + 1)
      case None => None
  }

  /** Salt and key from what follows the numbers. */
  function DecodeTail(rest: string): Result<(Bytes, Bytes)> {
    if '\r' in rest || '\n' in rest then Err(InvalidHash)
    else
      match IndexOf(rest, '$')
      case None => Err(InvalidHash)
      case Some(i) =>
        match (Base64.Decode(rest[..i]), Base64.Decode(rest[i + 1..]))
        case (Some(salt), Some(key)) => Ok((salt, key))
        case _ => Err(CorruptBase64)
  }

  /** The length recorded for a buffer: its length as a `uint32`. */
  function Recorded(b: Bytes): UInt32 {
    |b| % 0x1_0000_0000
  }

  /** The parameters, with the lengths of the buffers that follow them. */
  function DecodeBuffers(c: Costs): Result<Decoded> {
    match DecodeTail(c.rest)
    case Err(e) => Err(e)
    case Ok((salt, key)) =>
      Ok(Decoded(Params(c.memory, c.iterations, c.parallelism, Recorded(salt), Recorded(key)), salt, key))
  }

  function Decode(hash: string): Result<Decoded> {
    match Skip("$argon2id$", hash)
    case None => Err(IncompatibleVariant)
    case Some(s) =>
      match ScanVersion(s)
      case None => Err(BadNumbers)
      case Some((v, s)) =>
        if v != VERSION then Err(IncompatibleVersion)
        else
          match ScanCosts(s)
          case None => Err(BadNumbers)
          case Some(c) => DecodeBuffers(c)
  }

  lemma SkipIff(literal: string, s: string, rest: string)
    ensures Skip(literal, s) == Some(rest) <==> s == literal + rest
  {
    if literal <= s {
      assert s == literal + s[|literal|..];
    }
    assert (literal + rest)[|literal|..] == rest;
  }

  lemma {:induction false} VersionIff(f: Fields, rest: string, v: int)
    ensures ScanVersion(WrittenVersion(f, rest)) == Some((v, rest)) <==>
            SignedNumeral(f.version, v) && FitsInt64(v)
  {
    var tail := "$" + rest;
    SkipIff("v=", WrittenVersion(f, rest), f.version + tail);
    ScanIntIff(f.version, tail, v);
    var r := ScanInt(f.version + tail);
    if r.Some? {
      SkipIff("$", r.value.1, rest);
    }
  }

  lemma VersionSplit(s: string) returns (f: Fields)
    requires ScanVersion(s).Some?
    ensures s == WrittenVersion(f, ScanVersion(s).value.1)
  {
    var s1 := Skip("v=", s).value;
    SkipIff("v=", s, s1);
    ScanIntSplits(s1);
    var s2 := ScanInt(s1).value.1;
    var s3 := Skip("$", s2).value;
    SkipIff("$", s2, s3);
    f := Fields(s1[..|s1| - |s2|], "", "", "");
    assert s1 == f.version + s2;
  }

  lemma {:induction false} FieldIff(literal: string, text: string, rest: string, bound: nat, n: nat)
    requires Stops(rest)
    ensures ScanField(literal, bound, literal + (text + rest)) == Some((n, rest)) <==>
            Numeral(text, n) && n < bound
  {
    SkipIff(literal, literal + (text + rest), text + rest);
    ScanUintIff(text, rest, bound, n);
  }

  lemma FieldSplit(literal: string, bound: nat, s: string) returns (text: string)
    requires ScanField(literal, bound, s).Some?
    ensures var (n, rest) := ScanField(literal, bound, s).value;
            s == literal + (text + rest) && Stops(rest) && Numeral(text, n)
  {
    var s1 := Skip(literal, s).value;
    SkipIff(literal, s, s1);
    ScanUintSplits(s1, bound);
    var (n, rest) := ScanUint(s1, bound).value;
    text := s1[..|s1| - |rest|];
    assert s1 == text + rest;
    ScanUintIff(text, rest, bound, n);
  }

  /** The three numbers are worth what the parameters say. */
  predicate Worth(f: Fields, m: nat, t: nat, p: nat) {
    Numeral(f.memory, m) && Numeral(f.iterations, t) && Numeral(f.parallelism, p)
  }

  lemma CostsRead(f: Fields, c: Costs)
    requires Worth(f, c.memory, c.iterations, c.parallelism)
    ensures ScanCosts(WrittenCosts(f, c.rest)) == Some(c)
  {
    var s3 := "$" + c.rest;
    var s2 := ",p=" + (f.parallelism + s3);
    var s1 := ",t=" + (f.iterations + s2);
    FieldIff("m=", f.memory, s1, 0x1_0000_0000, c.memory);
    FieldIff(",t=", f.iterations, s2, 0x1_0000_0000, c.iterations);
    FieldIff(",p=", f.parallelism, s3, 0x100, c.parallelism);
    SkipIff("$", s3, c.rest);
  }

  lemma CostsSplit(s: string) returns (f: Fields)
    requires ScanCosts(s).Some?
    ensures var c := ScanCosts(s).value;
            Worth(f, c.memory, c.iterations, c.parallelism) && s == WrittenCosts(f, c.rest)
  {
    var m := FieldSplit("m=", 0x1_0000_0000, s);
    var s1 := ScanField("m=", 0x1_0000_0000, s).value.1;
    var t := FieldSplit(",t=", 0x1_0000_0000, s1);
    var s2 := ScanField(",t=", 0x1_0000_0000, s1).value.1;
    var p := FieldSplit(",p=", 0x100, s2);
    var s3 := ScanField(",p=", 0x100, s2).value.1;
    SkipIff("$", s3, Skip("$", s3).value);
    f := Fields("", m, t, p);
  }

  lemma {:induction false} IndexOfFirst(a: string, c: char, b: string)
    requires c !in a
    ensures IndexOf(a + ([c] + b), c) == Some(|a|)
  {
    if a != [] {
      assert (a + ([c] + b))[1..] == a[1..] + ([c] + b);
      IndexOfFirst(a[1..], c, b);
    }
  }

  /** Salt and key are read exactly from the one text that prints them. */
  lemma TailIff(rest: string, salt: Bytes, key: Bytes)
    ensures DecodeTail(rest) == Ok((salt, key)) <==> rest == WrittenTail(salt, key)
  {
    if DecodeTail(rest) == Ok((salt, key)) {
      TailSplits(rest);
    }
    TailReads(salt, key);
  }

  lemma SplitAt(s: string, i: nat)
    requires i < |s|
    ensures s == s[..i] + ([s[i]] + s[i + 1..])
  {
  }

  lemma TailSplits(rest: string)
    requires DecodeTail(rest).Ok?
    ensures var (salt, key) := DecodeTail(rest).value; rest == WrittenTail(salt, key)
  {
    var i := IndexOf(rest, '$').value;
    var (salt, key) := DecodeTail(rest).value;
    Base64.DecodeIffEncoded(rest[..i], salt);
    Base64.DecodeIffEncoded(rest[i + 1..], key);
    SplitAt(rest, i);
  }

  lemma TailReads(salt: Bytes, key: Bytes)
    ensures DecodeTail(WrittenTail(salt, key)) == Ok((salt, key))
  {
    var rest := WrittenTail(salt, key);
    Base64.EncodedIsClean(salt);
    Base64.EncodedIsClean(key);
    IndexOfFirst(Base64.Encode(salt), '$', Base64.Encode(key));
    var i := IndexOf(rest, '$').value;
    assert rest[..i] == Base64.Encode(salt) && rest[i + 1..] == Base64.Encode(key);
    Base64.DecodeIffEncoded(rest[..i], salt);
    Base64.DecodeIffEncoded(rest[i + 1..], key);
  }

  /** The texts print the version and these parameters, up to blanks, leading zeros and the sign of the version. */
  ghost predicate Prints(f: Fields, params: Params) {
    SignedNumeral(f.version, VERSION) && Worth(f, params.memory, params.iterations, params.parallelism)
  }

  /** Any such string decodes to the parameters, the salt and the key it prints, with their lengths. */
  lemma DecodeWritten(f: Fields, params: Params, salt: Bytes, key: Bytes)
    requires Prints(f, params) && params.saltLength == Recorded(salt) && params.keyLength == Recorded(key)
    ensures Decode(Written(f, salt, key)) == Ok(Decoded(params, salt, key))
  {
    var tail := WrittenTail(salt, key);
    var costs := WrittenCosts(f, tail);
    SkipIff("$argon2id$", Written(f, salt, key), WrittenVersion(f, costs));
    VersionIff(f, costs, VERSION);
    CostsRead(f, Costs(params.memory, params.iterations, params.parallelism, tail));
    TailReads(salt, key);
  }

  /** A string is accepted exactly when it prints what it decodes to. */
  lemma DecodeIff(hash: string, d: Decoded)
    ensures Decode(hash) == Ok(d) <==>
            d.params.saltLength == Recorded(d.salt) && d.params.keyLength == Recorded(d.key) &&
            exists f :: Prints(f, d.params) && hash == Written(f, d.salt, d.key)
  {
    if Decode(hash) == Ok(d) {
      var f := DecodeSplit(hash);
    }
    forall f | Prints(f, d.params)
               && d.params.saltLength == Recorded(d.salt) && d.params.keyLength == Recorded(d.key) &&
               hash == Written(f, d.salt, d.key)
      ensures Decode(hash) == Ok(d)
    {
      DecodeWritten(f, d.params, d.salt, d.key);
    }
  }

  lemma DecodeSplit(hash: string) returns (f: Fields)
    requires Decode(hash).Ok?
    ensures var d := Decode(hash).value; Prints(f, d.params) && hash == Written(f, d.salt, d.key)
  {
    var d := Decode(hash).value;
    var s1 := Skip("$argon2id$", hash).value;
    SkipIff("$argon2id$", hash, s1);
    var v := VersionSplit(s1);
    var s2 := ScanVersion(s1).value.1;
    VersionIff(v, s2, VERSION);
    var c := CostsSplit(s2);
    TailIff(ScanCosts(s2).value.rest, d.salt, d.key);
    f := Fields(v.version, c.memory, c.iterations, c.parallelism);
  }

  lemma DecodeFormatExact(params: Params, salt: Bytes, key: Bytes)
    requires params.saltLength == Recorded(salt) && params.keyLength == Recorded(key)
    ensures Decode(Format(params, salt, key)) == Ok(Decoded(params, salt, key))
  {
    DecIsNumeral(VERSION);
    DecIsNumeral(params.memory);
    DecIsNumeral(params.iterations);
    DecIsNumeral(params.parallelism);
    var f := Fields(Dec(VERSION), Dec(params.memory), Dec(params.iterations), Dec(params.parallelism));
    DecodeWritten(f, params, salt, key);
  }

  /** Decoding undoes the printing, whatever the parameters, the salt and the key. */
  lemma DecodeFormat(params: Params, salt: Bytes, key: Bytes)
    ensures Decode(Format(params, salt, key)) ==
            Ok(Decoded(params.(saltLength := Recorded(salt), keyLength := Recorded(key)), salt, key))
  {
    var printed := params.(saltLength := Recorded(salt), keyLength := Recorded(key));
    DecodeFormatExact(printed, salt, key);
    assert Format(printed, salt, key) == Format(params, salt, key);
  }

  // ---------- the text, by its parts ----------

  /** The text cut at every occurrence of the character. */
  function Parts(s: string, c: char): seq<string> {
    match IndexOf(s, c)
    case None => [s]
    case Some(i) => [s[..i]] + Parts(s[i + 1..], c)
  }

  lemma {:induction false} PartsOfJoined(a: string, c: char, b: string)
    requires c !in a
    ensures Parts(a + ([c] + b), c) == [a] + Parts(b, c)
  {
    IndexOfFirst(a, c, b);
    assert (a + ([c] + b))[..|a|] == a && (a + ([c] + b))[|a| + 1..] == b;
  }

  /** The parts put together again. */
  function Joined(parts: seq<string>, c: char): string
    requires parts != []
  {
    if |parts| == 1 then parts[0] else parts[0] + ([c] + Joined(parts[1..], c))
  }

  predicate Without(parts: seq<string>, c: char) {
    forall i :: 0 <= i < |parts| ==> c !in parts[i]
  }

  lemma {:induction false} PartsOfJoin(parts: seq<string>, c: char)
    requires parts != [] && Without(parts, c)
    ensures Parts(Joined(parts, c), c) == parts
  {
    var head, rest := parts[0], parts[1..];
    assert parts == [head] + rest;
    if rest == [] {
      assert c !in head;
    } else {
      assert forall i :: 0 <= i < |rest| ==> rest[i] == parts[i + 1];
      PartsOfJoin(rest, c);
      PartsOfJoined(head, c, Joined(rest, c));
    }
  }

  lemma {:induction false} DigitsAreClean(n: nat, c: char)
    requires !IsDigit(c)
    ensures c !in Dec(n)
  {
    DecIsShort(n);
  }

  function CostsText(m: nat, t: nat, p: nat): string {
    Joined(CostTexts(m, t, p), ',')
  }

  function CostTexts(m: nat, t: nat, p: nat): seq<string> {
    ["m=" + Dec(m), "t=" + Dec(t), "p=" + Dec(p)]
  }

  lemma {:induction false} CostsWritten(m: nat, t: nat, p: nat)
    ensures CostsText(m, t, p) == "m=" + (Dec(m) + (",t=" + (Dec(t) + (",p=" + Dec(p)))))
  {
    var parts := CostTexts(m, t, p);
    assert parts[1..] == ["t=" + Dec(t), "p=" + Dec(p)] && parts[1..][1..] == ["p=" + Dec(p)];
    assert Joined(parts[1..], ',') == "t=" + Dec(t) + ([','] + ("p=" + Dec(p)));
  }

  lemma CostsAreClean(m: nat, t: nat, p: nat)
    ensures '$' !in CostsText(m, t, p) && Without(CostTexts(m, t, p), ',')
  {
    CostsWritten(m, t, p);
    DigitsAreClean(m, '$');
    DigitsAreClean(t, '$');
    DigitsAreClean(p, '$');
    DigitsAreClean(m, ',');
    DigitsAreClean(t, ',');
    DigitsAreClean(p, ',');
  }

  /** The parts of a hash string. */
  function HashTexts(params: Params, salt: Bytes, key: Bytes): seq<string> {
    ["", "argon2id", "v=19", CostsText(params.memory, params.iterations, params.parallelism),
     Base64.Encode(salt), Base64.Encode(key)]
  }

  lemma TailJoined(salt: Bytes, key: Bytes)
    ensures Joined([Base64.Encode(salt), Base64.Encode(key)], '$') == WrittenTail(salt, key)
  {
    assert [Base64.Encode(salt), Base64.Encode(key)][1..] == [Base64.Encode(key)];
  }

  lemma {:induction false} JoinedHead(part: string, rest: seq<string>, c: char)
    requires rest != []
    ensures Joined([part] + rest, c) == part + ([c] + Joined(rest, c))
  {
    assert ([part] + rest)[1..] == rest;
  }

  lemma FormatIsJoined(params: Params, salt: Bytes, key: Bytes)
    ensures Format(params, salt, key) == Joined(HashTexts(params, salt, key), '$')
  {
    var m, t, p := params.memory, params.iterations, params.parallelism;
    var tail, costs := WrittenTail(salt, key), CostsText(params.memory, params.iterations, params.parallelism);
    var last := [Base64.Encode(salt), Base64.Encode(key)];
    TailJoined(salt, key);
    CostsWritten(m, t, p);
    JoinedHead(costs, last, '$');
    JoinedHead("v=19", [costs] + last, '$');
    JoinedHead("argon2id", ["v=19"] + ([costs] + last), '$');
    JoinedHead("", ["argon2id"] + (["v=19"] + ([costs] + last)), '$');
    assert HashTexts(params, salt, key) == [""] + (["argon2id"] + (["v=19"] + ([costs] + last)));
    FormatWritten(params, salt, key);
  }

  lemma FormatWritten(params: Params, salt: Bytes, key: Bytes)
    ensures Format(params, salt, key)
         == "" + (['$'] + ("argon2id" + (['$'] + ("v=19" + (['$'] +
              (CostsText(params.memory, params.iterations, params.parallelism) + (['$'] + WrittenTail(salt, key))))))))
  {
    var tail := WrittenTail(salt, key);
    var f := Fields(Dec(19), Dec(params.memory), Dec(params.iterations), Dec(params.parallelism));
    NineteenWritten();
    CostsThenTail(f, params.memory, params.iterations, params.parallelism, tail);
    assert WrittenVersion(f, WrittenCosts(f, tail)) == "v=19" + (['$'] + WrittenCosts(f, tail));
  }

  lemma NineteenWritten()
    ensures Dec(19) == "19"
  {
    assert Dec(1) == "1";
  }

  lemma {:induction false} CostsThenTail(f: Fields, m: nat, t: nat, p: nat, tail: string)
    requires f.memory == Dec(m) && f.iterations == Dec(t) && f.parallelism == Dec(p)
    ensures WrittenCosts(f, tail) == CostsText(m, t, p) + (['$'] + tail)
  {
    CostsWritten(m, t, p);
  }

  /** A printed hash between its dollar signs: the variant, the version, the costs by name, the salt, the key. */
  lemma FormatParts(params: Params, salt: Bytes, key: Bytes)
    ensures Parts(Format(params, salt, key), '$')
         == ["", "argon2id", "v=19", CostsText(params.memory, params.iterations, params.parallelism),
             Base64.Encode(salt), Base64.Encode(key)]
    ensures Parts(CostsText(params.memory, params.iterations, params.parallelism), ',')
         == ["m=" + Dec(params.memory), "t=" + Dec(params.iterations), "p=" + Dec(params.parallelism)]
  {
    FormatIsJoined(params, salt, key);
    CostsAreClean(params.memory, params.iterations, params.parallelism);
    Base64.EncodedIsClean(salt);
    Base64.EncodedIsClean(key);
    PartsOfJoin(HashTexts(params, salt, key), '$');
    PartsOfJoin(CostTexts(params.memory, params.iterations, params.parallelism), ',');
  }

  // ---------- what is refused, and why ----------

  /** Another variant is refused as such, before anything else is read. */
  lemma VariantRefusedIff(hash: string)
    ensures Decode(hash) == Err(IncompatibleVariant) <==> !("$argon2id$" <= hash)
  {
  }

  /** So is a version that can be read and is not nineteen. */
  lemma {:induction false} VersionRefusedIff(hash: string)
    ensures Decode(hash) == Err(IncompatibleVersion)
       <==> exists f, v, rest :: hash == "$argon2id$" + WrittenVersion(f, rest)
                                 && SignedNumeral(f.version, v) && FitsInt64(v) && v != 19
  {
    if Decode(hash) == Err(IncompatibleVersion) {
      VersionRead(hash);
    }
    if f, v, rest :| hash == "$argon2id$" + WrittenVersion(f, rest)
                     && SignedNumeral(f.version, v) && FitsInt64(v) && v != 19 {
      SkipIff("$argon2id$", hash, WrittenVersion(f, rest));
      VersionIff(f, rest, v);
    }
  }

  lemma {:induction false} VersionRead(hash: string)
    requires Decode(hash) == Err(IncompatibleVersion)
    ensures exists f, v, rest :: hash == "$argon2id$" + WrittenVersion(f, rest)
                                 && SignedNumeral(f.version, v) && FitsInt64(v) && v != 19
  {
    var s := Skip("$argon2id$", hash).value;
    SkipIff("$argon2id$", hash, s);
    var f := VersionSplit(s);
    var (v, rest) := ScanVersion(s).value;
    VersionIff(f, rest, v);
    assert hash == "$argon2id$" + WrittenVersion(f, rest);
  }

  /** Behind the numbers: a line break, or no separator, is no hash; otherwise what fails is the decoding. */
  lemma TailRefusedIff(rest: string)
    ensures DecodeTail(rest) == Err(InvalidHash) <==> '\r' in rest || '\n' in rest || '$' !in rest
    ensures DecodeTail(rest) == Err(CorruptBase64)
       <==> '\r' !in rest && '\n' !in rest && '$' in rest && !exists salt, key :: rest == WrittenTail(salt, key)
  {
    if DecodeTail(rest).Ok? {
      TailSplits(rest);
    }
    if salt, key :| rest == WrittenTail(salt, key) {
      TailReads(salt, key);
    }
  }
}
