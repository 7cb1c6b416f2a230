/**
 * SRP-6a key agreement (section 2.6 of RFC 5054) with Firebird's 1024-bit group.
 * The hash is a parameter: only the length of its result is used.
 */
module Srp {
  import opened Common
  import opened Powers
  import opened BigInt

  const N: int := 0xE67D2E994B2F900C3F41F08F5BB2627ED0D49EE1FE767A52EFCD565CD6E768812C3E1E9CE8F0A8BEA6CB13CD29DDEBF7A96D4A93B55D488DF099A15C89DCB0640738EB2CBDD9A8F7BAB561AB1B0DC1C6CDABF303264A08D1BCA932D1F1EE428B619D970F342ABA9A65793B8B2F041AE5364350C16F735F56ECBCA87BD57B29E7
  const G := 2
  const K := 1277432915985975349439481660349303019122249719989
  const KEY_SIZE := 128
  const TWO_160 := 0x1_0000_0000_0000_0000_0000_0000_0000_0000_0000_0000

  type Hash = Bytes -> Bytes

  ghost predicate IsSha1(h: Hash) {
    forall m :: |h(m)| == 20
  }

  /** A number that does not fit the key size makes the original panic. */
  predicate FitsKey(v: int) {
    Abs(v) < Pow(256, KEY_SIZE)
  }

  function Pad(v: int): (bs: Bytes)
    requires FitsKey(v)
    ensures |bs| == KEY_SIZE
  {
    FillBytes(Abs(v), KEY_SIZE)
  }

  lemma GroupElementFits(v: int)
    requires 0 <= v < N
    ensures FitsKey(v)
  {
    PowAdd(256, 64, 64);
    PowAdd(256, 32, 32);
    PowAdd(256, 16, 16);
    PowAdd(256, 8, 8);
    assert Pow(256, 8) == 0x1_0000_0000_0000_0000;
  }

  /** What is hashed into u determines both public keys. */
  lemma ScrambleInputInjective(keyA: int, keyB: int, keyA': int, keyB': int)
    requires 0 <= keyA < N && 0 <= keyB < N && 0 <= keyA' < N && 0 <= keyB' < N
    requires FitsKey(keyA) && FitsKey(keyB) && FitsKey(keyA') && FitsKey(keyB')
    requires Pad(keyA) + Pad(keyB) == Pad(keyA') + Pad(keyB')
    ensures keyA == keyA' && keyB == keyB'
  {
    var p, p' := Pad(keyA) + Pad(keyB), Pad(keyA') + Pad(keyB');
    assert p[..KEY_SIZE] == Pad(keyA) && p[KEY_SIZE..] == Pad(keyB);
    assert p'[..KEY_SIZE] == Pad(keyA') && p'[KEY_SIZE..] == Pad(keyB');
    FillBytesRoundTrip(keyA, KEY_SIZE);
    FillBytesRoundTrip(keyB, KEY_SIZE);
    FillBytesRoundTrip(keyA', KEY_SIZE);
    FillBytesRoundTrip(keyB', KEY_SIZE);
  }

  lemma DigestBound(h: Hash, m: Bytes)
    requires IsSha1(h)
    ensures BytesToBig(h(m)) < TWO_160
  {
    BytesToBigBound(h(m));
    PowAdd(256, 10, 10);
    PowAdd(256, 5, 5);
    assert Pow(256, 5) == 0x100_0000_0000;
  }

  // ---------------------------------------------------------------------------
  // The two sides of the exchange
  // ---------------------------------------------------------------------------

  function ModExp(b: int, e: nat, m: int): (r: int)
    requires 0 < m
    ensures 0 <= r < m
  {
    Pow(b, e) % m
  }

  function ClientPublicKey(a: nat): int {
    ModExp(G, a, N)
  }

  function Scramble(sha1: Hash, keyA: int, keyB: int): nat
    requires FitsKey(keyA) && FitsKey(keyB)
  {
    BytesToBig(sha1(Pad(keyA) + Pad(keyB)))
  }

  function UserHash(sha1: Hash, salt: Bytes, user: Bytes, password: Bytes): nat {
    BytesToBig(sha1(salt + sha1(user + [58] + password)))
  }

  /** Neither of two messages is mistaken for the other. */
  predicate NoCollision(h: Hash, m: Bytes, m': Bytes) { h(m) == h(m') ==> m == m' }

  /** Unless the hash collides, x tells passwords apart, and salts of one length. */
  lemma UserHashSeparates(sha1: Hash, salt: Bytes, user: Bytes, password: Bytes, salt': Bytes, password': Bytes)
    requires IsSha1(sha1) && |salt| == |salt'|
    requires NoCollision(sha1, user + [58] + password, user + [58] + password')
    requires NoCollision(sha1, salt + sha1(user + [58] + password), salt' + sha1(user + [58] + password'))
    requires UserHash(sha1, salt, user, password) == UserHash(sha1, salt', user, password')
    ensures salt == salt' && password == password'
  {
    var m, m' := user + [58] + password, user + [58] + password';
    var o, o' := salt + sha1(m), salt' + sha1(m');
    BytesToBigInjective(sha1(o), sha1(o'));
    assert o[..|salt|] == salt && o'[..|salt|] == salt' && o[|salt|..] == sha1(m) && o'[|salt|..] == sha1(m');
    assert m[|user| + 1..] == password && m'[|user| + 1..] == password';
  }

  function Verifier(x: nat): int {
    ModExp(G, x, N)
  }

  function ServerPublicKey(v: int, b: nat): (keyB: int)
    ensures 0 <= keyB < N
  {
    ((K * v) % N + ModExp(G, b, N)) % N
  }

  function ServerSecret(keyA: int, v: int, u: nat, b: nat): (s: int)
    ensures 0 <= s < N
  {
    ModExp((keyA * ModExp(v, u, N)) % N, b, N)
  }

  /** The client secret of section 2.6 of RFC 5054, without any intermediate reduction. */
  function ClientSecret(keyB: int, a: nat, u: nat, x: nat): (s: int)
    requires 0 <= u * x
    ensures 0 <= s < N
  {
    ModExp(keyB - K * Pow(G, x), a + u * x, N)
  }

  lemma ExponentBelowModulus(a: nat, u: nat, x: nat)
    requires a < TWO_128 && u < TWO_160 && x < TWO_160
    ensures 0 <= u * x && a + u * x < N
    ensures (a + (u * x) % N) % N == a + u * x
  {
    var p := TWO_160 - 1;
    MulMonotone(u, p, x);
    MulMonotone(x, p, p);
    var e := u * x;
    assert 0 <= e by { MulMonotone(0, u, x); }
    assert e <= p * p;
    assert p * p + TWO_128 < N;
    SmallMod(e, N);
    SmallMod(a + e, N);
  }

  lemma SmallMod(a: int, n: int)
    requires 0 <= a < n
    ensures a % n == a
  {
  }

  /**
   * The client's computation, reusing two temporaries and reducing every
   * intermediate, the exponent included, modulo N.
   */
  method ComputeClientSecret(keyB: int, a: nat, u: nat, x: nat) returns (s: int)
    requires a < TWO_128 && u < TWO_160 && x < TWO_160
    ensures 0 <= u * x && s == ClientSecret(keyB, a, u, x)
  {
    hide Pow;
    var t1 := ModExp(G, x, N);
    t1 := K * t1;
    t1 := t1 % N;
    t1 := keyB - t1;
    t1 := t1 % N;
    ExponentBelowModulus(a, u, x);
    var t2 := u * x;
    t2 := t2 % N;
    t2 := a + t2;
    t2 := t2 % N;
    ClientBaseCongruent(keyB, x);
    CongruentPow(t1, keyB - K * Pow(G, x), t2, N);
    s := ModExp(t1, t2, N);
  }

  lemma ClientBaseCongruent(keyB: int, x: nat)
    ensures Congruent((keyB - (K * ModExp(G, x, N)) % N) % N, keyB - K * Pow(G, x), N)
  {
    var gx := ModExp(G, x, N);
    ModReduced(Pow(G, x), N);
    CongruentMul(K, K, gx, Pow(G, x), N);
    ModReduced(K * gx, N);
    CongruentAdd(keyB, keyB, (K * gx) % N, K * Pow(G, x), N);
    ModReduced(keyB - (K * gx) % N, N);
  }

  /** With an honest server the base of the client's exponentiation is g^b. */
  lemma HonestBase(b: nat, x: nat)
    ensures Congruent(ServerPublicKey(Verifier(x), b) - K * Pow(G, x), Pow(G, b), N)
  {
    var v, gb := Verifier(x), ModExp(G, b, N);
    ModReduced(Pow(G, x), N);
    CongruentMul(K, K, v, Pow(G, x), N);
    ModReduced(K * v, N);
    ModReduced(Pow(G, b), N);
    CongruentAdd((K * v) % N, K * Pow(G, x), gb, Pow(G, b), N);
    ModReduced((K * v) % N + gb, N);
    CongruentAdd(ServerPublicKey(v, b), K * Pow(G, x) + Pow(G, b), K * Pow(G, x), K * Pow(G, x), N);
  }

  /** Both secrets are g^(b(a+ux)) modulo N. */
  lemma SecretsAgree(a: nat, b: nat, u: nat, x: nat)
    ensures 0 <= u * x
    ensures ClientSecret(ServerPublicKey(Verifier(x), b), a, u, x)
         == ServerSecret(ClientPublicKey(a), Verifier(x), u, b)
  {
    MulMonotone(0, u, x);
    var e: nat := a + u * x;
    HonestBase(b, x);
    CongruentPow(ServerPublicKey(Verifier(x), b) - K * Pow(G, x), Pow(G, b), e, N);
    ServerBase(a, u, x);
    var base := (ClientPublicKey(a) * ModExp(Verifier(x), u, N)) % N;
    CongruentPow(base, Pow(G, e), b, N);
    PowPow(G, b, e);
    PowPow(G, e, b);
    assert b * e == e * b;
  }

  lemma ServerBase(a: nat, u: nat, x: nat)
    ensures 0 <= u * x
    ensures Congruent((ClientPublicKey(a) * ModExp(Verifier(x), u, N)) % N, Pow(G, a + u * x), N)
  {
    MulMonotone(0, u, x);
    var v := Verifier(x);
    ModReduced(Pow(G, x), N);
    CongruentPow(v, Pow(G, x), u, N);
    ModReduced(Pow(v, u), N);
    PowPow(G, x, u);
    assert x * u == u * x;
    ModReduced(Pow(G, a), N);
    CongruentMul(ClientPublicKey(a), Pow(G, a), ModExp(v, u, N), Pow(G, u * x), N);
    PowAdd(G, a, u * x);
    ModReduced(ClientPublicKey(a) * ModExp(v, u, N), N);
  }

  // ---------------------------------------------------------------------------
  // The server's challenge on the wire
  // ---------------------------------------------------------------------------

  datatype AuthError = TooShort | TruncatedSalt | MissingKey | InvalidHex

  function HexDigit(d: int): byte
    requires 0 <= d < 16
  {
    if d < 10 then 48 + d else 55 + d
  }

  function HexValue(c: byte): Option<nat> {
    if 48 <= c <= 57 then Some(c - 48)
    else if 65 <= c <= 70 then Some(c - 55)
    else if 97 <= c <= 102 then Some(c - 87)
    else None
  }

  function UpperHex(src: Bytes): (dst: Bytes)
    ensures |dst| == 2 * |src|
  {
    if src == [] then []
    else
      var b := src[|src| - 1];
      UpperHex(src[..|src| - 1]) + [HexDigit(b / 16), HexDigit(b % 16)]
  }

  method ToUpperHex(src: Bytes) returns (dst: array<byte>)
    ensures fresh(dst) && dst[..] == UpperHex(src)
  {
    dst := new byte[2 * |src|];
    for i := 0 to |src|
      invariant dst[..2 * i] == UpperHex(src[..i])
    {
      var b := src[i];
      dst[i * 2] := HexDigit(b / 16);
      dst[i * 2 + 1] := HexDigit(b % 16);
      assert src[..i + 1][..i] == src[..i];
      assert dst[..2 * (i + 1)] == dst[..2 * i] + [HexDigit(b / 16), HexDigit(b % 16)];
    }
    assert src[..|src|] == src;
    assert dst[..2 * |src|] == dst[..];
  }

  function HexNumber(s: Bytes): Option<nat> {
    if s == [] then Some(0)
    else
      match (HexNumber(s[..|s| - 1]), HexValue(s[|s| - 1]))
      case (Some(n), Some(d)) => Some(n * 16 + d)
      case _ => None
  }

  /** Base-16 parsing: an optional sign and at least one digit of either case. */
  function ParseHex(s: Bytes): Option<int> {
    var signed := s != [] && (s[0] == 43 || s[0] == 45);
    var digits := if signed then s[1..] else s;
    if digits == [] then None
    else
      match HexNumber(digits)
      case None => None
      case Some(n) => Some(if signed && s[0] == 45 then -(n as int) else n as int)
  }

  /** Two upper-case digits for each byte, the high one first. */
  lemma {:induction false} UpperHexDigits(bs: Bytes, i: nat)
    requires i < |bs|
    ensures var digits := "0123456789ABCDEF";
            && UpperHex(bs)[2 * i] == digits[bs[i] / 16] as int && UpperHex(bs)[2 * i + 1] == digits[bs[i] % 16] as int
  {
    if i < |bs| - 1 {
      UpperHexDigits(bs[..|bs| - 1], i);
    }
  }

  lemma {:induction false} HexRoundTrip(bs: Bytes)
    ensures HexNumber(UpperHex(bs)) == Some(BytesToBig(bs))
  {
    if bs != [] {
      var h, b := UpperHex(bs), bs[|bs| - 1];
      HexRoundTrip(bs[..|bs| - 1]);
      assert h[..|h| - 1][..|h| - 2] == UpperHex(bs[..|bs| - 1]);
      assert h[..|h| - 1][|h| - 2] == HexDigit(b / 16) && h[|h| - 1] == HexDigit(b % 16);
      assert HexNumber(h[..|h| - 1]) == Some(BytesToBig(bs[..|bs| - 1]) * 16 + b / 16);
    }
  }

  lemma UpperHexFirst(bs: Bytes)
    requires bs != []
    ensures UpperHex(bs)[0] == HexDigit(bs[0] / 16)
  {
    if |bs| > 1 {
      UpperHexFirst(bs[..|bs| - 1]);
    } else {
      assert UpperHex(bs[..0]) == [];
    }
  }

  function ParseServerAuthData(data: Bytes): Result<(Bytes, int), AuthError> {
    if |data| < 4 then Err(TooShort)
    else
      var saltLen := LE16(data[0], data[1]);
      if |data| < 2 + saltLen + 2 then Err(TruncatedSalt)
      else
        var hexStart := 2 + saltLen + 2;
        if hexStart >= |data| then Err(MissingKey)
        else
          match ParseHex(data[hexStart..])
          case None => Err(InvalidHex)
          case Some(keyB) => Ok((data[2..2 + saltLen], keyB))
  }

  /** The challenge as the server writes it: salt and key, each behind a 16-bit length. */
  function BuildServerAuthData(salt: Bytes, keyB: nat): Bytes {
    var hex := UpperHex(BigToBytes(keyB));
    [|salt| % 256, |salt| / 256 % 256] + salt + [|hex| % 256, |hex| / 256 % 256] + hex
  }

  /** A zero key is written as an empty string, which the client refuses; every other key survives. */
  lemma ChallengeRoundTrip(salt: Bytes, keyB: nat)
    requires |salt| < 65536
    ensures ParseServerAuthData(BuildServerAuthData(salt, keyB))
         == if keyB == 0 then Err(MissingKey) else Ok((salt, keyB))
  {
    var bs := BigToBytes(keyB);
    var hex := UpperHex(bs);
    var data := BuildServerAuthData(salt, keyB);
    LE16RoundTrip(|salt|);
    assert LE16(data[0], data[1]) == |salt|;
    assert data[2 + |salt| + 2..] == hex;
    assert data[2..2 + |salt|] == salt;
    BigBytesRoundTrip(keyB);
    HexRoundTrip(bs);
    if keyB != 0 {
      UpperHexFirst(bs);
      assert hex[0] != 43 && hex[0] != 45;
    }
  }

  // ---------------------------------------------------------------------------
  // Session keys
  // ---------------------------------------------------------------------------

  method ClientSessionKey(sha1: Hash, user: Bytes, password: Bytes, salt: Bytes, keyA: int, keyB: int, a: nat)
    returns (key: Bytes)
    requires IsSha1(sha1) && a < TWO_128 && FitsKey(keyA) && FitsKey(keyB)
    ensures var u, x := Scramble(sha1, keyA, keyB), UserHash(sha1, salt, user, password);
            0 <= u * x && key == sha1(BigToBytes(ClientSecret(keyB, a, u, x)))
  {
    var u := Scramble(sha1, keyA, keyB);
    var x := UserHash(sha1, salt, user, password);
    DigestBound(sha1, Pad(keyA) + Pad(keyB));
    DigestBound(sha1, salt + sha1(user + [58] + password));
    var s := ComputeClientSecret(keyB, a, u, x);
    key := sha1(BigToBytes(s));
  }

  /** What the server keeps of a user: g^x with x = SHA1(salt | SHA1(user | ":" | password)). */
  function ServerVerifier(sha1: Hash, user: Bytes, password: Bytes, salt: Bytes): int {
    ModExp(G, BytesToBig(sha1(salt + sha1(user + [58] + password))), N)
  }

  /** The server's key, from its verifier, with u = SHA1(PAD(A) | PAD(B)). */
  function ServerSessionKey(sha1: Hash, verifier: int, keyA: int, keyB: int, b: nat): Bytes
    requires FitsKey(keyA) && FitsKey(keyB)
  {
    sha1(BigToBytes(ServerSecret(keyA, verifier, BytesToBig(sha1(Pad(keyA) + Pad(keyB))), b)))
  }

  /**
   * The whole exchange as the client runs it: parse the challenge, then derive
   * the key. An honest server's challenge is accepted exactly when B is not
   * zero, and then both sides hold the same key.
   */
  method Exchange(sha1: Hash, user: Bytes, password: Bytes, salt: Bytes, a: nat, ghost b: nat, challenge: Bytes)
    returns (key: Result<Bytes, AuthError>)
    requires IsSha1(sha1) && a < TWO_128 && |salt| < 65536
    requires challenge == BuildServerAuthData(salt, ServerPublicKey(ServerVerifier(sha1, user, password, salt), b))
    ensures var verifier := ServerVerifier(sha1, user, password, salt);
            var keyB := ServerPublicKey(verifier, b);
            FitsKey(keyB) && FitsKey(ClientPublicKey(a)) &&
            key == if keyB == 0 then Err(MissingKey)
                   else Ok(ServerSessionKey(sha1, verifier, ClientPublicKey(a), keyB, b))
  {
    ghost var x := UserHash(sha1, salt, user, password);
    ghost var honest := ServerPublicKey(Verifier(x), b);
    ChallengeRoundTrip(salt, honest);
    GroupElementFits(honest);
    GroupElementFits(ClientPublicKey(a));
    match ParseServerAuthData(challenge)
    case Err(e) =>
      key := Err(e);
    case Ok((s, keyB)) =>
      var keyA := ClientPublicKey(a);
      SecretsAgree(a, b, Scramble(sha1, keyA, keyB), x);
      var k := ClientSessionKey(sha1, user, password, s, keyA, keyB, a);
      key := Ok(k);
  }
}
