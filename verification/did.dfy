/** did:key identifiers of Ed25519 keys: src/aries/identity/did.py lines 53-71. */
module Did {
  import opened Wrappers
  import opened Bits
  import opened Numerals
  import Base58

  const PREFIX := "did:key:z"
  const ED25519_MULTICODEC: seq<Byte> := [0xED, 0x01]

  datatype Error = BadKeyLength | BadPrefix | BadLetter(Base58.Error) | NotEd25519 | BadDecodedLength

  /** public_key_to_did */
  function PublicKeyToDid(key: seq<Byte>): Result<string, Error> {
    if |key| != 32 then Err(BadKeyLength)
    else Ok(PREFIX + Base58.Encoded(ED25519_MULTICODEC + key))
  }

  /** did_to_public_key */
  function DidToPublicKey(did: string): Result<seq<Byte>, Error> {
    if !(PREFIX <= did) then Err(BadPrefix)
    else
      match Base58.Decoding(did[|PREFIX|..])
      case Err(e) => Err(BadLetter(e))
      case Ok(decoded) =>
        if !(ED25519_MULTICODEC <= decoded) then Err(NotEd25519)
        else if |decoded| - 2 != 32 then Err(BadDecodedLength)
        else Ok(decoded[2..])
  }

  /** Every key comes back from its identifier. */
  lemma KeyRoundTrip(key: seq<Byte>)
    ensures PublicKeyToDid(key).Ok? <==> |key| == 32
    ensures |key| == 32 ==> DidToPublicKey(PublicKeyToDid(key).value) == Ok(key)
  {
    if |key| == 32 {
      hide Base58.Decoding, Base58.Encoded;
      var data := ED25519_MULTICODEC + key;
      Base58.DecodeEncode(data);
      var did := PublicKeyToDid(key).value;
      assert did[|PREFIX|..] == Base58.Encoded(data) && data[2..] == key;
    }
  }

  /** Every accepted identifier is the identifier of the key that it yields: there is one per key. */
  lemma DidRoundTrip(did: string)
    requires DidToPublicKey(did).Ok?
    ensures |DidToPublicKey(did).value| == 32
    ensures PublicKeyToDid(DidToPublicKey(did).value) == Ok(did)
  {
    var s := did[|PREFIX|..];
    Base58.EncodeDecode(s);
    var decoded := Base58.Decoding(s).value;
    assert decoded == ED25519_MULTICODEC + decoded[2..];
    assert did == PREFIX + s;
  }

  /** Which error is raised, in the order of the tests. */
  lemma RejectedInOrder(did: string, key: seq<Byte>)
    ensures |key| != 32 ==> PublicKeyToDid(key) == Err(BadKeyLength)
    ensures !("did:key:z" <= did) ==> DidToPublicKey(did) == Err(BadPrefix)
    ensures "did:key:z" <= did ==>
              match Base58.Decoding(did[9..])
              case Err(e) => DidToPublicKey(did) == Err(BadLetter(e))
              case Ok(bytes) =>
                if |bytes| < 2 || bytes[0] != 0xED || bytes[1] != 0x01 then DidToPublicKey(did) == Err(NotEd25519)
                else if |bytes| != 34 then DidToPublicKey(did) == Err(BadDecodedLength)
                else DidToPublicKey(did) == Ok(bytes[2..])
  {
    hide Base58.Decoding, Base58.Encoded;
  }

  lemma Squares(base: nat, a: nat, b: nat, c: nat, d: nat, e: nat)
    requires a == base * base && b == a * a && c == b * b && d == c * c && e == d * d
    ensures Pow(base, 4) == b && Pow(base, 8) == c && Pow(base, 32) == e
  {
    assert Pow(base, 1) == base by { assert Pow(base, 0) == 1; }
    PowSum(base, 1, 1);
    PowSum(base, 2, 2);
    PowSum(base, 4, 4);
    PowSum(base, 8, 8);
    PowSum(base, 16, 16);
  }

  /** The numbers whose first two bytes of 34 are 0xED01 share their three leading base-58 digits. */
  lemma HeaderBlock()
    ensures 18023 * Pow(58, 44) <= 0xED01 * Pow(256, 32)
    ensures 0xED02 * Pow(256, 32) <= 18024 * Pow(58, 44)
  {
    Squares(256, 0x1_0000, 0x1_0000_0000, 0x1_0000_0000_0000_0000, 0x1_0000_0000_0000_0000_0000_0000_0000_0000,
            0x1_0000_0000_0000_0000_0000_0000_0000_0000_0000_0000_0000_0000_0000_0000_0000_0000);
    Squares(58, 3364, 11316496, 128063081718016, 16400152899115243850138976256, 268965015114358137726910587140455987105619365599731777536);
    PowSum(58, 32, 8);
    PowSum(58, 40, 4);
  }

  lemma HeaderDigits()
    ensures Numeral(58, 18023) == [5, 20, 43]
    ensures Value(256, ED25519_MULTICODEC) == 0xED01
  {
    assert Numeral(58, 5) == [] + [5];
    assert Numeral(58, 310) == [5] + [20];
    assert ED25519_MULTICODEC[..1] == [0xED] && ED25519_MULTICODEC[..0] == [];
    assert Value(256, [0xED]) == 0xED by { assert [0xED][..0] == []; }
  }

  /** Every identifier has 56 characters and starts with did:key:z6Mk. */
  lemma DidShape(key: seq<Byte>)
    requires |key| == 32
    ensures |PublicKeyToDid(key).value| == |PREFIX| + 47
    ensures PREFIX + "6Mk" <= PublicKeyToDid(key).value
  {
    hide Pow, Numeral, Value, Base58.Encoded;
    var data := ED25519_MULTICODEC + key;
    var n := Value(256, data);
    HeaderBlock();
    HeaderDigits();
    ValueConcat(256, ED25519_MULTICODEC, key);
    ValueBound(256, key);
    HeaderRange(n, Value(256, key), Pow(256, 32), Pow(58, 44));
    assert Within(58, n, 18023, 44);
    LeadingDigits(58, n, 18023, 44);
    TranscodedHeader(data, n);
  }

  lemma HeaderRange(n: nat, v: nat, p: nat, q: nat)
    requires n == 0xED01 * p + v && v < p && 18023 * q <= 0xED01 * p && 0xED02 * p <= 18024 * q
    ensures 18023 * q <= n < 18024 * q
  {
  }

  lemma TranscodedHeader(data: seq<Byte>, n: nat)
    requires data != [] && data[0] != 0 && n == Value(256, data)
    requires |Numeral(58, n)| == 47 && [5, 20, 43] <= Numeral(58, n)
    ensures |Base58.Encoded(data)| == 47 && "6Mk" <= Base58.Encoded(data)
  {
    TranscodeInverse(256, 58, data);
    var digits := Transcode(256, 58, data);
    assert digits == Numeral(58, n);
    LettersOfHeader(digits);
  }

  lemma LettersOfHeader(digits: seq<nat>)
    requires |digits| == 47 && [5, 20, 43] <= digits && Below(58, digits)
    ensures |Base58.Letters(digits)| == 47 && "6Mk" <= Base58.Letters(digits)
  {
    hide Base58.ALPHABET;
    Base58.AlphabetAt(5);
    Base58.AlphabetAt(20);
    Base58.AlphabetAt(43);
    assert digits[0] == 5 && digits[1] == 20 && digits[2] == 43;
    var s := Base58.Letters(digits);
    assert s[0] == '6' && s[1] == 'M' && s[2] == 'k';
  }
}
