/** Creating, decoding and checking Argon2id hashes, around a key derivation left uninterpreted. */
module HashLib {
  import opened HashFormat
  import opened Options
  import Base64
  import Scanning

  /** `argon2.IDKey` of a password, a salt, the iterations, the memory, the parallelism and the key length;
      `None` where it panics. */
  type Kdf = (Bytes, Bytes, nat, nat, nat, nat) -> Option<Bytes>

  /** A derived key is as long as asked (section 3.1 of RFC 9106). */
  ghost predicate KeysHaveLength(kdf: Kdf) {
    forall pw, salt, t, m, p, n :: kdf(pw, salt, t, m, p, n).Some? ==> |kdf(pw, salt, t, m, p, n).value| == n
  }

  function Derive(kdf: Kdf, password: Bytes, salt: Bytes, params: Params): Option<Bytes> {
    kdf(password, salt, params.iterations, params.memory, params.parallelism, params.keyLength)
  }

  /** The hash of a password for the salt that was drawn. */
  function CreateHash(kdf: Kdf, password: Bytes, salt: Bytes, params: Params): Option<string>
    requires |salt| == params.saltLength
  {
    match Derive(kdf, password, salt, params)
    case None => None
    case Some(key) => Some(Format(params, salt, key))
  }

  datatype Check = Refused(error: HashError) | Panicked | Compared(matches: bool, params: Params)

  /** The comparison with the key derived from the decoded salt and parameters, lengths first. */
  function Compare(kdf: Kdf, password: Bytes, d: Decoded): Check {
    match Derive(kdf, password, d.salt, d.params)
    case None => Panicked
    case Some(other) =>
      if Recorded(d.key) != Recorded(other) then Compared(false, d.params)
      else Compared(d.key == other, d.params)
  }

  function CheckHash(kdf: Kdf, password: Bytes, hash: string): Check {
    match Decode(hash)
    case Err(e) => Refused(e)
    case Ok(d) => Compare(kdf, password, d)
  }

  lemma CompareIff(kdf: Kdf, password: Bytes, d: Decoded, params: Params)
    ensures Compare(kdf, password, d) == Compared(true, params) <==>
            d.params == params && Derive(kdf, password, d.salt, params) == Some(d.key)
  {
  }

  lemma KeyLength(kdf: Kdf, password: Bytes, salt: Bytes, params: Params)
    requires KeysHaveLength(kdf) && Derive(kdf, password, salt, params).Some?
    ensures Recorded(Derive(kdf, password, salt, params).value) == params.keyLength
  {
    assert |kdf(password, salt, params.iterations, params.memory, params.parallelism, params.keyLength).value| ==
           params.keyLength;
  }

  lemma CreatedDecodes(kdf: Kdf, password: Bytes, salt: Bytes, params: Params)
    requires KeysHaveLength(kdf)
    requires |salt| == params.saltLength && CreateHash(kdf, password, salt, params).Some?
    ensures Decode(CreateHash(kdf, password, salt, params).value) ==
            Ok(Decoded(params, salt, Derive(kdf, password, salt, params).value))
  {
    var key := Derive(kdf, password, salt, params).value;
    KeyLength(kdf, password, salt, params);
    assert Recorded(salt) == params.saltLength;
    DecodeFormatExact(params, salt, key);
  }

  /** A created hash decodes to exactly what it was made from; the password it was made from is accepted,
      and any other one is accepted exactly if it derives the same key. */
  lemma CheckCreated(kdf: Kdf, made: Bytes, given: Bytes, salt: Bytes, params: Params)
    requires KeysHaveLength(kdf)
    requires |salt| == params.saltLength && CreateHash(kdf, made, salt, params).Some?
    ensures var hash := CreateHash(kdf, made, salt, params).value;
            var derived := kdf(made, salt, params.iterations, params.memory, params.parallelism, params.keyLength);
            derived.Some? && Decode(hash) == Ok(Decoded(params, salt, derived.value)) &&
            CheckHash(kdf, made, hash) == Compared(true, params) &&
            (CheckHash(kdf, given, hash) == Compared(true, params) <==>
               kdf(given, salt, params.iterations, params.memory, params.parallelism, params.keyLength) == derived)
  {
    CreatedDecodes(kdf, made, salt, params);
    var d := Decoded(params, salt, Derive(kdf, made, salt, params).value);
    CompareIff(kdf, made, d, params);
    CompareIff(kdf, given, d, params);
  }

  /** The text of a created hash between its separators: the parameters by name, the salt, and the key derived
      with the iterations before the memory. */
  lemma CreatedText(kdf: Kdf, password: Bytes, salt: Bytes, params: Params)
    requires |salt| == params.saltLength && CreateHash(kdf, password, salt, params).Some?
    ensures var parts := Parts(CreateHash(kdf, password, salt, params).value, '$');
      var key := kdf(password, salt, params.iterations, params.memory, params.parallelism, params.keyLength);
      && key.Some? && |parts| == 6
      && parts[..3] == ["", "argon2id", "v=19"] && parts[4..] == [Base64.Encode(salt), Base64.Encode(key.value)]
      && Parts(parts[3], ',') == ["m=" + Scanning.Dec(params.memory), "t=" + Scanning.Dec(params.iterations),
                                  "p=" + Scanning.Dec(params.parallelism)]
  {
    FormatParts(params, salt, Derive(kdf, password, salt, params).value);
  }

  /** The string prints parameters, a salt and the key derived from them and the password. */
  ghost predicate Attests(kdf: Kdf, password: Bytes, hash: string, params: Params) {
    exists f, salt, key :: hash == Written(f, salt, key) && Prints(f, params) &&
                           Recorded(salt) == params.saltLength &&
                           kdf(password, salt, params.iterations, params.memory, params.parallelism, params.keyLength)
                             == Some(key)
  }

  lemma AttestedIsAccepted(kdf: Kdf, password: Bytes, hash: string, params: Params)
    requires KeysHaveLength(kdf) && Attests(kdf, password, hash, params)
    ensures CheckHash(kdf, password, hash) == Compared(true, params)
  {
    var f, salt, key :| hash == Written(f, salt, key) && Prints(f, params) &&
                        Recorded(salt) == params.saltLength &&
                        Derive(kdf, password, salt, params) == Some(key);
    KeyLength(kdf, password, salt, params);
    DecodeWritten(f, params, salt, key);
    CompareIff(kdf, password, Decoded(params, salt, key), params);
  }

  /** For every string: a password is accepted exactly if the string prints parameters, a salt and the key
      that the password derives from them. */
  lemma CheckAcceptsIff(kdf: Kdf, password: Bytes, hash: string, params: Params)
    requires KeysHaveLength(kdf)
    ensures CheckHash(kdf, password, hash) == Compared(true, params) <==> Attests(kdf, password, hash, params)
  {
    if CheckHash(kdf, password, hash) == Compared(true, params) {
      var d := Decode(hash).value;
      CompareIff(kdf, password, d, params);
      DecodeIff(hash, d);
      var f :| Prints(f, d.params) && hash == Written(f, d.salt, d.key);
    }
    if Attests(kdf, password, hash, params) {
      AttestedIsAccepted(kdf, password, hash, params);
    }
  }

  /** A string that does not decode is refused with the decoder's error; one that does is compared, whatever
      comes of it, under its own parameters, unless the derivation panics on them. */
  lemma CheckOutcomes(kdf: Kdf, password: Bytes, hash: string)
    ensures var check := CheckHash(kdf, password, hash);
      match Decode(hash)
      case Err(e) => check == Refused(e)
      case Ok(d) =>
        var p := d.params;
        if kdf(password, d.salt, p.iterations, p.memory, p.parallelism, p.keyLength).None? then check == Panicked
        else check.Compared? && check.params == p
  {
  }

  /** A `strings.Reader`: the text and how much of it has been read. */
  class Reader {
    const text: string
    var pos: nat

    ghost predicate Valid()
      reads this
    {
      pos <= |text|
    }

    function Rest(): string
      requires Valid()
      reads this
    {
      text[pos..]
    }

    constructor (s: string)
      ensures Valid() && Rest() == s
    {
      text := s;
      pos := 0;
    }

    /** Reads literal text of a format; where that fails the position is of no further use. */
    method Match(literal: string) returns (ok: bool)
      requires Valid()
      modifies this
      ensures Valid()
      ensures ok <==> Skip(literal, old(Rest())).Some?
      ensures ok ==> Skip(literal, old(Rest())) == Some(Rest())
    {
      ok := literal <= text[pos..];
      if ok {
        assert text[pos..][|literal|..] == text[pos + |literal|..];
        pos := pos + |literal|;
      }
    }

    /** Reads an `int` with `%d`. */
    method ReadInt() returns (v: Option<int>)
      requires Valid()
      modifies this
      ensures Valid()
      ensures v.Some? <==> Scanning.ScanInt(old(Rest())).Some?
      ensures v.Some? ==> Scanning.ScanInt(old(Rest())) == Some((v.value, Rest()))
    {
      match Scanning.ScanInt(text[pos..])
      case None => v := None;
      case Some((n, rest)) =>
        Scanning.ScanIntSplits(text[pos..]);
        pos := |text| - |rest|;
        v := Some(n);
    }

    /** Reads an unsigned number below `bound` with `%d`. */
    method ReadUint(bound: nat) returns (v: Option<nat>)
      requires Valid()
      modifies this
      ensures Valid()
      ensures v.Some? <==> Scanning.ScanUint(old(Rest()), bound).Some?
      ensures v.Some? ==> Scanning.ScanUint(old(Rest()), bound) == Some((v.value, Rest()))
    {
      match Scanning.ScanUint(text[pos..], bound)
      case None => v := None;
      case Some((n, rest)) =>
        Scanning.ScanUintSplits(text[pos..], bound);
        pos := |text| - |rest|;
        v := Some(n);
    }

    method ReadVersion() returns (v: Option<int>)
      requires Valid()
      modifies this
      ensures Valid()
      ensures v.Some? <==> ScanVersion(old(Rest())).Some?
      ensures v.Some? ==> ScanVersion(old(Rest())) == Some((v.value, Rest()))
    {
      var ok := Match("v=");
      if !ok {
        return None;
      }
      v := ReadInt();
      if v.Some? {
        ok := Match("$");
        if !ok {
          return None;
        }
      }
    }

    method ReadField(literal: string, bound: nat) returns (v: Option<nat>)
      requires Valid()
      modifies this
      ensures Valid()
      ensures v.Some? <==> ScanField(literal, bound, old(Rest())).Some?
      ensures v.Some? ==> ScanField(literal, bound, old(Rest())) == Some((v.value, Rest()))
    {
      var ok := Match(literal);
      if !ok {
        return None;
      }
      v := ReadUint(bound);
    }

    method ReadCosts() returns (c: Option<Costs>)
      requires Valid()
      modifies this
      ensures Valid()
      ensures c == ScanCosts(old(Rest()))
      ensures c.Some? ==> c.value.rest == Rest()
    {
      var m := ReadField("m=", 0x1_0000_0000);
      if m.None? {
        return None;
      }
      var t := ReadField(",t=", 0x1_0000_0000);
      if t.None? {
        return None;
      }
      var p := ReadField(",p=", 0x100);
      if p.None? {
        return None;
      }
      var ok := Match("$");
      if !ok {
        return None;
      }
      c := Some(Costs(m.value, t.value, p.value, text[pos..]));
    }
  }

  /** Decodes into a buffer of the size the decoder asks for; success fills it completely. */
  method DecodeInto(dst: array<Base64.Byte>, src: string) returns (ok: bool)
    requires dst.Length == Base64.DecodedLen(|src|)
    modifies dst
    ensures ok <==> Base64.Decode(src).Some?
    ensures ok ==> Base64.Decode(src) == Some(dst[..])
  {
    match Base64.Decode(src)
    case None => ok := false;
    case Some(bytes) =>
      Base64.DecodedFits(src);
      forall i | 0 <= i < dst.Length {
        dst[i] := bytes[i];
      }
      assert dst[..] == bytes;
      ok := true;
  }

  /** Salt and key buffers from what follows the numbers. */
  method ReadBuffers(rest: string)
    returns (error: Option<HashError>, salt: array<Base64.Byte>, key: array<Base64.Byte>)
    ensures fresh(salt) && fresh(key)
    ensures match error
            case Some(e) => DecodeTail(rest) == Err(e)
            case None => DecodeTail(rest) == Ok((salt[..], key[..]))
  {
    salt, key := new Base64.Byte[0], new Base64.Byte[0];
    if '\r' in rest || '\n' in rest {
      return Some(InvalidHash), salt, key;
    }
    var i := IndexOf(rest, '$');
    if i.None? {
      return Some(InvalidHash), salt, key;
    }
    salt := new Base64.Byte[Base64.DecodedLen(i.value)];
    var ok := DecodeInto(salt, rest[..i.value]);
    if !ok {
      return Some(CorruptBase64), salt, key;
    }
    key := new Base64.Byte[Base64.DecodedLen(|rest| - i.value - 1)];
    ok := DecodeInto(key, rest[i.value + 1..]);
    if !ok {
      return Some(CorruptBase64), salt, key;
    }
    error := None;
  }

  /** Everything before the salt. */
  method ReadNumbers(hash: string) returns (c: Result<Costs>)
    ensures c.Err? ==> Decode(hash) == Err(c.error)
    ensures c.Ok? ==> Decode(hash) == DecodeBuffers(c.value)
  {
    var r := new Reader(hash);
    var ok := r.Match("$argon2id$");
    if !ok {
      return Err(IncompatibleVariant);
    }
    var version := r.ReadVersion();
    if version.None? {
      return Err(BadNumbers);
    }
    if version.value != VERSION {
      return Err(IncompatibleVersion);
    }
    var costs := r.ReadCosts();
    c := if costs.None? then Err(BadNumbers) else Ok(costs.value);
  }

  /** Reads a hash string front to back: the outcome and the filled buffers are those of `Decode`. */
  method DecodeHash(hash: string)
    returns (params: Result<Params>, salt: array<Base64.Byte>, key: array<Base64.Byte>)
    ensures fresh(salt) && fresh(key)
    ensures match Decode(hash)
            case Err(e) => params == Err(e)
            case Ok(d) => params == Ok(d.params) && salt[..] == d.salt && key[..] == d.key
  {
    salt, key := new Base64.Byte[0], new Base64.Byte[0];
    var costs := ReadNumbers(hash);
    if costs.Err? {
      return Err(costs.error), salt, key;
    }
    var c, error := costs.value, None;
    error, salt, key := ReadBuffers(c.rest);
    if error.Some? {
      return Err(error.value), salt, key;
    }
    params := Ok(Params(c.memory, c.iterations, c.parallelism,
                        salt.Length % 0x1_0000_0000, key.Length % 0x1_0000_0000));
  }
}
