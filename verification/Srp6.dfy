/**
 The SRP-6a exchange (include/security/srp6.hpp), with M1 = H(A|B|K) and
 M2 = H(A|M1|K). SHA-256 is an arbitrary function with 32-byte results; the
 group modulus is any odd number above 1 that fits 2048 bits. Random choices are
 arguments. `Raised` stands for the exceptions the code throws.
 */
module Srp6 {
  import opened Numerals
  import opened ByteIo
  import opened Modular

  const N_BYTES := 256
  const G := 2
  const SALT_SIZE := 16

  type Hash = s: Bytes | |s| == 32 witness seq(32, _ => 0)
  type Sha256 = Bytes -> Hash

  datatype Checked<+T> = Raised | Fine(value: T) {
    predicate IsFailure() { Raised? }
    function PropagateFailure<U>(): Checked<U> requires Raised? { Raised }
    function Extract(): T requires Fine? { value }
  }

  datatype GroupParams = GroupParams(N: nat, sha: Sha256)

  ghost predicate ValidGroup(p: GroupParams) {
    1 < p.N < Pow(0x100, N_BYTES) && p.N % 2 == 1
  }

  type Group = p: GroupParams | ValidGroup(p) ghost witness (SomeGroup(); GroupParams(3, _ => seq(32, _ => 0)))

  lemma SomeGroup()
    ensures 3 < Pow(0x100, N_BYTES)
  {
    PowerGrows(N_BYTES);
  }

  lemma {:induction false} PowerGrows(e: nat)
    requires e > 0
    ensures Pow(0x100, e) >= 0x100
  {
    if e > 1 { PowerGrows(e - 1); }
  }

  /** `bn_to_bytes`: fixed width, or an exception when the number is too large. */
  function BnToBytes(n: nat): Checked<Bytes> {
    if n < Pow(0x100, N_BYTES) then Fine(BigEndian(n, N_BYTES)) else Raised
  }

  function BnFromBytes(s: Bytes): nat { FromBigEndian(s) }

  function ComputeX(p: Group, salt: Bytes, username: Bytes, password: Bytes): nat {
    BnFromBytes(p.sha(salt + p.sha(username + Ascii(":") + password)))
  }

  function ComputeK(p: Group): Checked<nat> {
    var n :- BnToBytes(p.N);
    var g :- BnToBytes(G);
    Fine(BnFromBytes(p.sha(n + g)))
  }

  function ComputeU(p: Group, A: Bytes, B: Bytes): nat { BnFromBytes(p.sha(A + B)) }

  function ComputeM1(p: Group, A: Bytes, B: Bytes, K: Hash): Hash { p.sha(A + B + K) }

  function ComputeM2(p: Group, A: Bytes, M1: Bytes, K: Hash): Hash { p.sha(A + M1 + K) }

  // ---------------------------------------------------------------- registration

  datatype Registration = Registration(salt: Bytes, verifier: Bytes)

  function Register(p: Group, username: Bytes, password: Bytes, salt: Bytes): Checked<Registration> {
    var x := ComputeX(p, salt, username, password);
    var v :- BnToBytes(ModExp(G, x, p.N));
    Fine(Registration(salt, v))
  }

  // ---------------------------------------------------------------- server

  datatype Challenge = Challenge(b: nat, v: nat, B: Bytes)

  function ServerBegin(p: Group, verifier: Bytes, b: nat): Checked<Challenge> {
    var k :- ComputeK(p);
    var v := BnFromBytes(verifier);
    var kv := k * v % p.N;
    var gb := ModExp(G, b, p.N);
    var B :- BnToBytes((kv + gb) % p.N);
    Fine(Challenge(b, v, B))
  }

  function ServerSecret(p: Group, c: Challenge, A: Bytes): nat {
    var vu := ModExp(c.v, ComputeU(p, A, c.B), p.N);
    var avu := BnFromBytes(A) * vu % p.N;
    ModExp(avu, c.b, p.N)
  }

  /** `server_verify`: the proof M2 when the client's M1 is accepted. */
  function ServerVerify(p: Group, c: Challenge, A: Bytes, M1: Bytes): Checked<Option<Bytes>> {
    if BnFromBytes(A) % p.N == 0 then Fine(None)
    else if ComputeU(p, A, c.B) == 0 then Fine(None)
    else
      var s :- BnToBytes(ServerSecret(p, c, A));
      var K := p.sha(s);
      var expected := ComputeM1(p, A, c.B, K);
      if expected != M1 then Fine(None) else Fine(Some(ComputeM2(p, A, expected, K)))
  }

  // ---------------------------------------------------------------- client

  datatype ClientProof = ClientProof(A: Bytes, M1: Hash, K: Hash)

  function ClientSecret(p: Group, k: nat, x: nat, a: nat, u: nat, B: Bytes): nat {
    var kgx := k * ModExp(G, x, p.N) % p.N;
    var base := (BnFromBytes(B) - kgx) % p.N;
    ModExp(base, a + u * x, p.N)
  }

  function ClientRespond(p: Group, username: Bytes, password: Bytes, salt: Bytes, B: Bytes, a: nat): Checked<ClientProof> {
    var k :- ComputeK(p);
    if BnFromBytes(B) % p.N == 0 then Raised else
    var A :- BnToBytes(ModExp(G, a, p.N));
    var u := ComputeU(p, A, B);
    var x := ComputeX(p, salt, username, password);
    var s :- BnToBytes(ClientSecret(p, k, x, a, u, B));
    var K := p.sha(s);
    Fine(ClientProof(A, ComputeM1(p, A, B, K), K))
  }

  predicate ClientVerifyServer(p: Group, proof: ClientProof, M2: Bytes) {
    ComputeM2(p, proof.A, proof.M1, proof.K) == M2
  }

  // ---------------------------------------------------------------- fixed-width numbers

  /** Numbers survive the byte encoding exactly when no exception is raised. */
  lemma BnRoundTrip(n: nat)
    ensures BnToBytes(n).Fine? <==> BnFromBytes(BigEndian(n, N_BYTES)) == n
    ensures BnToBytes(n).Fine? ==> |BnToBytes(n).value| == N_BYTES && BnFromBytes(BnToBytes(n).value) == n
  {
    NumberRoundTrip(n, N_BYTES);
  }

  /** The size error of `bn_to_bytes` never occurs, whatever bytes the peer sent; the client's
      only exception is the refusal of B = 0. */
  lemma NeverTooLarge(p: Group, username: Bytes, password: Bytes, salt: Bytes, verifier: Bytes,
                      a: nat, b: nat, c: Challenge, A: Bytes, B: Bytes, M1: Bytes)
    ensures ComputeK(p).Fine?
    ensures Register(p, username, password, salt).Fine?
    ensures ServerBegin(p, verifier, b).Fine?
    ensures ServerVerify(p, c, A, M1).Fine?
    ensures ClientRespond(p, username, password, salt, B, a).Fine? <==> BnFromBytes(B) % p.N != 0
  {}

  // ---------------------------------------------------------------- the source's group

  // Eight rows of 256 bits, as the constant is written in the source.
  const N0 := 0xF511360967F552BDE33F1CBAA2A7FB1952F54B0B98C5C43B0C41F5CDE6BDE52F
  const N1 := 0x23190FB594E944D74CD79557D372AA1896F8E50E4369090FB5951BE6365AF475
  const N2 := 0xE9110B93B9BA6628AF0F5C9AB386154C4C2A4107FD522255D138E092DEA66252
  const N3 := 0x4A45C3E0F405622641C69444663EFD1989325FCBE9DCE9BD5EE35DAF1A88B818
  const N4 := 0xE820992BCA6617258137105E432EBA98F9E27235C0FF535BD4B6B89F7A030C54
  const N5 := 0xBCE4BCA12CEED3AEBADBB567C05D8DB3755AECB83DAF494C8CE8F596B7FC72D0
  const N6 := 0x2C44D0C7D1CE96C329A6CF080B15A543327362BDCCAECE26BFB35F7A5D0A80A6
  const N7 := 0xF6EEBF818694AB4A0D2B3188A884BD94AD5B38E0C7B510AC532449CA2850A5EF

  function GroupN(): nat {
    Row(Row(Row(Row(Row(Row(Row(N0, N1), N2), N3), N4), N5), N6), N7)
  }

  const ROW := 0x10000000000000000000000000000000000000000000000000000000000000000

  function Row(high: nat, low: nat): nat { high * ROW + low }

  lemma RowBound(high: nat, low: nat, rows: nat)
    requires high < Pow(ROW, rows) && low < ROW
    ensures Row(high, low) < Pow(ROW, rows + 1)
  {}

  lemma RowSize()
    ensures Pow(0x100, 32) == ROW
  {
    PowerOfSum(0x100, 2, 2);
    PowerOfSum(0x100, 4, 4);
    PowerOfSum(0x100, 8, 8);
    PowerOfSum(0x100, 16, 16);
    WordSizes();
  }

  /** The 2048-bit constant of the source is one of the groups the theorems speak about. */
  lemma SourceGroup(sha: Sha256)
    ensures ValidGroup(GroupParams(GroupN(), sha))
  {
    hide Row, Pow;
    PowerOfOne(ROW);
    RowBound(N0, N1, 1);
    var r1 := Row(N0, N1);
    RowBound(r1, N2, 2);
    var r2 := Row(r1, N2);
    RowBound(r2, N3, 3);
    var r3 := Row(r2, N3);
    RowBound(r3, N4, 4);
    var r4 := Row(r3, N4);
    RowBound(r4, N5, 5);
    var r5 := Row(r4, N5);
    RowBound(r5, N6, 6);
    var r6 := Row(r5, N6);
    RowBound(r6, N7, 7);
    RowSize();
    PowerOfPower(0x100, 32, 8);
    OddRow(r6, N7);
  }

  lemma PowerOfOne(b: int)
    ensures Pow(b, 1) == b
  {}

  lemma OddRow(high: nat, low: nat)
    requires low % 2 == 1 && low > 1
    ensures Row(high, low) % 2 == 1 && Row(high, low) > 1
  {}

  // ---------------------------------------------------------------- agreement

  /** What the client subtracts leaves the server's public power: B - k g^x = g^b. */
  lemma ClientBase(n: nat, k: nat, x: nat, b: nat)
    requires n > 1
    ensures var v := ModExp(G, x, n);
            ((k * v % n + ModExp(G, b, n)) % n - k * v % n) % n == ModExp(G, b, n)
  {
    var v, gb := ModExp(G, x, n), ModExp(G, b, n);
    ResidueTwice(gb, n);
    ResidueTwice(k * v, n);
    ResidueTwice(k * v % n + gb, n);
    CongruentDifference((k * v % n + gb) % n, k * v % n, gb, n);
    ResidueTwice(Pow(G, b), n);
  }

  /** (g^b)^(a + u x) and (g^a (g^x)^u)^b are the same residue. */
  lemma SecretsAgree(n: nat, a: nat, b: nat, u: nat, x: nat)
    requires n > 1
    ensures ModExp(ModExp(G, b, n), a + u * x, n)
         == ModExp(ModExp(G, a, n) * ModExp(ModExp(G, x, n), u, n) % n, b, n)
  {
    var e := a + u * x;
    ResidueTwice(Pow(G, b), n);
    CongruentPowers(ModExp(G, b, n), Pow(G, b), e, n);
    PowerOfPower(G, b, e);
    var vu := ModExp(ModExp(G, x, n), u, n);
    ResidueTwice(Pow(G, x), n);
    CongruentPowers(ModExp(G, x, n), Pow(G, x), u, n);
    PowerOfPower(G, x, u);
    ResidueTwice(Pow(ModExp(G, x, n), u), n);
    ResidueTwice(Pow(G, a), n);
    CongruentFactors(ModExp(G, a, n), Pow(G, a), vu, Pow(G, x * u), n);
    PowerOfSum(G, a, x * u);
    assert x * u == u * x;
    var prod := ModExp(G, a, n) * vu;
    ResidueTwice(prod, n);
    CongruentPowers(prod % n, Pow(G, e), b, n);
    PowerOfPower(G, e, b);
    assert e * b == b * e;
  }

  /** The server's public number for the private exponents x and b. */
  function PublicB(n: nat, k: nat, x: nat, b: nat): (B: nat)
    requires n > 1
    ensures B < n
  {
    (k * ModExp(G, x, n) % n + ModExp(G, b, n)) % n
  }

  lemma InRange(p: Group, n: nat)
    requires n < p.N
    ensures BnToBytes(n) == Fine(BigEndian(n, N_BYTES)) && BnFromBytes(BigEndian(n, N_BYTES)) == n
  {
    BnRoundTrip(n);
  }

  lemma HonestChallenge(p: Group, username: Bytes, password: Bytes, salt: Bytes, b: nat)
    ensures ComputeK(p).Fine?
    ensures ComputeX(p, salt, username, password) == FromBigEndian(p.sha(salt + p.sha(username + [0x3A] + password)))
    ensures var x := ComputeX(p, salt, username, password);
            var v := ModExp(G, x, p.N);
            && Register(p, username, password, salt) == Fine(Registration(salt, BigEndian(v, N_BYTES)))
            && ServerBegin(p, BigEndian(v, N_BYTES), b)
            == Fine(Challenge(b, v, BigEndian(PublicB(p.N, ComputeK(p).value, x, b), N_BYTES)))
  {
    hide ComputeX, BnToBytes, BnFromBytes, ModExp, BigEndian;
    SomeGroup();
    HashedNumbers(p, salt, username, password);
    var x := ComputeX(p, salt, username, password);
    assert ComputeK(p).Fine? by { NeverTooLarge(p, [], [], [], [], 0, 0, Challenge(0, 0, []), [], [], []); }
    InRange(p, ModExp(G, x, p.N));
    InRange(p, PublicB(p.N, ComputeK(p).value, x, b));
  }

  /** Both sides of an honest run hold the same secret, and the client's A is acceptable. */
  lemma HonestSecrets(p: Group, k: nat, x: nat, a: nat, b: nat)
    ensures var v := ModExp(G, x, p.N);
            var A := BigEndian(ModExp(G, a, p.N), N_BYTES);
            var B := BigEndian(PublicB(p.N, k, x, b), N_BYTES);
            && BnFromBytes(A) % p.N != 0
            && ClientSecret(p, k, x, a, ComputeU(p, A, B), B) == ServerSecret(p, Challenge(b, v, B), A)
  {
    hide ComputeU, BnFromBytes, ModExp, BigEndian;
    var A, B := ModExp(G, a, p.N), PublicB(p.N, k, x, b);
    InRange(p, A);
    InRange(p, B);
    PowerOfTwoNotZero(a, p.N);
    DivisionIsUnique(A, p.N, 0, A);
    ClientBase(p.N, k, x, b);
    SecretsAgree(p.N, a, b, ComputeU(p, BigEndian(A, N_BYTES), BigEndian(B, N_BYTES)), x);
  }

  // ---------------------------------------------------------------- the handshake

  /** One login over these functions: what the client and the server end up with. */
  datatype Outcome = ClientRefused | ServerRefused | Mutual(proof: ClientProof, M2: Bytes, clientAccepts: bool)

  function Handshake(p: Group, reg: Registration, username: Bytes, password: Bytes, a: nat, b: nat): Checked<Outcome> {
    var c :- ServerBegin(p, reg.verifier, b);
    match ClientRespond(p, username, password, reg.salt, c.B, a)
    case Raised => Fine(ClientRefused)
    case Fine(proof) =>
      var m2 :- ServerVerify(p, c, proof.A, proof.M1);
      Fine(if m2.None? then ServerRefused else Mutual(proof, m2.value, ClientVerifyServer(p, proof, m2.value)))
  }

  /** A login with the right password succeeds on both sides exactly when B mod N and u are not zero. */
  lemma Agreement(p: Group, username: Bytes, password: Bytes, salt: Bytes, a: nat, b: nat)
    ensures Register(p, username, password, salt).Fine?
    ensures var reg := Register(p, username, password, salt).value;
            && ServerBegin(p, reg.verifier, b).Fine?
            && var c := ServerBegin(p, reg.verifier, b).value;
            var A := BigEndian(ModExp(G, a, p.N), N_BYTES);
            var h := Handshake(p, reg, username, password, a, b);
            && h.Fine?
            && (h.value.Mutual? && h.value.clientAccepts
                <==> BnFromBytes(c.B) % p.N != 0 && ComputeU(p, A, c.B) != 0)
            && (h.value.Mutual? ==> h.value.proof.A == A)
  {
    hide ComputeX, ComputeK, ComputeU, BnToBytes, BnFromBytes, ModExp, BigEndian, ServerSecret, ClientSecret, PublicB, ServerBegin, Register;
    HonestChallenge(p, username, password, salt, b);
    var reg := Register(p, username, password, salt).value;
    var x, k := ComputeX(p, salt, username, password), ComputeK(p).value;
    var c := ServerBegin(p, reg.verifier, b).value;
    HonestSecrets(p, k, x, a, b);
    var A := ModExp(G, a, p.N);
    InRange(p, A);
    var u := ComputeU(p, BigEndian(A, N_BYTES), c.B);
    SecretBelowN(p, k, x, a, u, c.B);
    InRange(p, ClientSecret(p, k, x, a, u, c.B));
  }

  lemma SecretBelowN(p: Group, k: nat, x: nat, a: nat, u: nat, B: Bytes)
    ensures ClientSecret(p, k, x, a, u, B) < p.N
  {}

  lemma ServerSecretBelowN(p: Group, c: Challenge, A: Bytes)
    ensures ServerSecret(p, c, A) < p.N
  {}

  // ---------------------------------------------------------------- soundness

  /** These two strings break the hash. */
  predicate Collides(sha: Sha256, s: Bytes, t: Bytes) { s != t && sha(s) == sha(t) }

  lemma EqualParts(a: Bytes, b: Bytes, c: Bytes, d: Bytes)
    requires |a| == |c| && a + b == c + d
    ensures a == c && b == d
  {
    assert a == (a + b)[..|a|] && c == (c + d)[..|a|] && b == (a + b)[|a|..] && d == (c + d)[|a|..];
  }

  /** Why numbers are hashed at a fixed width: equal proofs mean the same A, the same B and the same key, in their
      places, and equal u mean the same A and B, unless the very strings that were hashed collide. */
  lemma TranscriptBinding(p: Group, A: Bytes, B: Bytes, K: Hash, A': Bytes, B': Bytes, K': Hash)
    requires |A| == |A'| && |B| == |B'|
    ensures ComputeM1(p, A, B, K) == ComputeM1(p, A', B', K')
       <==> (A == A' && B == B' && K == K') || Collides(p.sha, A + B + K, A' + B' + K')
    ensures ComputeU(p, A, B) == ComputeU(p, A', B') <==> (A == A' && B == B') || Collides(p.sha, A + B, A' + B')
  {
    hide FromBigEndian;
    if A + B + K == A' + B' + K' {
      EqualParts(A + B, K, A' + B', K');
      EqualParts(A, B, A', B');
    }
    if A + B == A' + B' { EqualParts(A, B, A', B'); }
    DigitsRoundTrip(p.sha(A + B));
    DigitsRoundTrip(p.sha(A' + B'));
  }

  /** Whatever account and whatever password: the server accepts an SRP client exactly when A mod N and u are not zero
      and both computed the same secret, or the encodings of their two secrets collide, or the two transcripts do. */
  lemma AcceptanceMeansSameSecret(p: Group, username: Bytes, password: Bytes, salt: Bytes, c: Challenge, a: nat)
    ensures ComputeK(p).Fine?
    ensures var r := ClientRespond(p, username, password, salt, c.B, a);
            r.Fine? ==>
              var A := r.value.A;
              var x, u := ComputeX(p, salt, username, password), ComputeU(p, A, c.B);
              var ours := ClientSecret(p, ComputeK(p).value, x, a, u, c.B);
              var theirs := ServerSecret(p, c, A);
              var s, t := BigEndian(ours, N_BYTES), BigEndian(theirs, N_BYTES);
              var verdict := ServerVerify(p, c, A, r.value.M1);
              && verdict.Fine?
              && (verdict.value.Some? <==>
                    && BnFromBytes(A) % p.N != 0 && u != 0
                    && (ours == theirs || Collides(p.sha, s, t) || Collides(p.sha, A + c.B + p.sha(s), A + c.B + p.sha(t))))
  {
    hide ComputeX, ComputeK, ComputeU, BnToBytes, BnFromBytes, ModExp, BigEndian, ServerSecret, ClientSecret, ComputeM1, ComputeM2;
    NeverTooLarge(p, username, password, salt, [], a, 0, c, [], c.B, []);
    var r := ClientRespond(p, username, password, salt, c.B, a);
    if r.Fine? {
      var A := r.value.A;
      var x, k, u := ComputeX(p, salt, username, password), ComputeK(p).value, ComputeU(p, A, c.B);
      var ours, theirs := ClientSecret(p, k, x, a, u, c.B), ServerSecret(p, c, A);
      SecretBelowN(p, k, x, a, u, c.B);
      ServerSecretBelowN(p, c, A);
      InRange(p, ours);
      InRange(p, theirs);
      InRange(p, ModExp(G, a, p.N));
      TranscriptBinding(p, A, c.B, p.sha(BigEndian(ours, N_BYTES)), A, c.B, p.sha(BigEndian(theirs, N_BYTES)));
    }
  }

  // ---------------------------------------------------------------- the formulas of RFC 5054, without intermediate residues

  /** Factors and exponents may be reduced along the way or not. */
  lemma PowerOfProduct(a: int, v: int, u: nat, b: nat, n: nat)
    requires n > 1
    ensures ModExp(a * ModExp(v, u, n) % n, b, n) == Pow(a * Pow(v, u), b) % n
  {
    ResidueTwice(Pow(v, u), n);
    CongruentFactors(a, a, ModExp(v, u, n), Pow(v, u), n);
    ResidueTwice(a * ModExp(v, u, n), n);
    CongruentPowers(a * ModExp(v, u, n) % n, a * Pow(v, u), b, n);
  }

  lemma SumOfResidues(a: int, b: int, n: nat)
    requires n > 1
    ensures (a % n + b % n) % n == (a + b) % n
  {
    var q := a / n + b / n;
    assert a == (a / n) * n + a % n && b == (b / n) * n + b % n;
    assert a + b == a % n + b % n + q * n by { assert q * n == (a / n) * n + (b / n) * n; }
    AddMultiple(a % n + b % n, q, n);
  }

  lemma DifferenceOfResidues(a: int, b: int, n: nat)
    requires n > 1
    ensures (a - b % n) % n == (a - b) % n
  {
    CongruentDifference(a, b, a - b, n);
  }

  lemma ProductOfResidue(k: int, v: int, n: nat)
    requires n > 1
    ensures k * (v % n) % n == k * v % n
  {
    ResidueTwice(v, n);
    CongruentFactors(k, k, v % n, v, n);
  }

  /** x and k are hashes of these very strings. */
  lemma HashedNumbers(p: Group, salt: Bytes, username: Bytes, password: Bytes)
    ensures ComputeX(p, salt, username, password) == FromBigEndian(p.sha(salt + p.sha(username + [0x3A] + password)))
    ensures ComputeK(p) == Fine(FromBigEndian(p.sha(BigEndian(p.N, 256) + BigEndian(2, 256))))
  {
    assert Ascii(":") == [0x3A];
    NeverTooLarge(p, [], [], [], [], 0, 0, Challenge(0, 0, []), [], [], []);
  }

  /** The stored verifier is g^x, for the x of this salt, username and password. */
  lemma RegistersExactly(p: Group, username: Bytes, password: Bytes, salt: Bytes)
    ensures var x := FromBigEndian(p.sha(salt + p.sha(username + [0x3A] + password)));
            Register(p, username, password, salt) == Fine(Registration(salt, BigEndian(Pow(2, x) % p.N, 256)))
  {
    hide ComputeX, BnToBytes, BigEndian;
    HashedNumbers(p, salt, username, password);
    InRange(p, ModExp(G, ComputeX(p, salt, username, password), p.N));
  }

  /** For any verifier bytes at all the challenge is B = k v + g^b. */
  lemma BeginsExactly(p: Group, verifier: Bytes, b: nat)
    ensures var k := FromBigEndian(p.sha(BigEndian(p.N, 256) + BigEndian(2, 256)));
            var v := FromBigEndian(verifier);
            ServerBegin(p, verifier, b) == Fine(Challenge(b, v, BigEndian((k * v + Pow(2, b)) % p.N, 256)))
  {
    hide ComputeK, BnToBytes, BigEndian, FromBigEndian;
    HashedNumbers(p, [], [], []);
    var k, v := ComputeK(p).value, BnFromBytes(verifier);
    SumOfResidues(k * v, Pow(2, b), p.N);
    InRange(p, (k * v + Pow(2, b)) % p.N);
  }

  /** The server accepts, for any bytes A of any length and any M1 and whatever account or peer they come from, exactly
      when A mod N and u are not zero and M1 is the hash of A, B and the key of (A v^u)^b; its answer proves that key. */
  lemma VerifiesExactly(p: Group, c: Challenge, A: Bytes, M1: Bytes)
    ensures var u := FromBigEndian(p.sha(A + c.B));
            var S := Pow(FromBigEndian(A) * Pow(c.v, u), c.b) % p.N;
            var K := p.sha(BigEndian(S, 256));
            ServerVerify(p, c, A, M1)
            == Fine(if FromBigEndian(A) % p.N != 0 && u != 0 && M1 == p.sha(A + c.B + K) then Some(p.sha(A + M1 + K)) else None)
  {
    hide BnToBytes, BigEndian, FromBigEndian, ModExp;
    var a, u := FromBigEndian(A), ComputeU(p, A, c.B);
    PowerOfProduct(a, c.v, u, c.b, p.N);
    InRange(p, ServerSecret(p, c, A));
  }

  /** The guard of the protocol: an A that is zero modulo N is refused with any proof, for any challenge. */
  lemma ZeroIsRefused(p: Group, c: Challenge, A: Bytes, M1: Bytes)
    ensures FromBigEndian(A) % p.N == 0 ==> ServerVerify(p, c, A, M1) == Fine(None)
  {
    VerifiesExactly(p, c, A, M1);
  }

  lemma ClientSecretInPowers(p: Group, k: nat, x: nat, a: nat, u: nat, B: Bytes)
    ensures ClientSecret(p, k, x, a, u, B) == Pow(FromBigEndian(B) - k * Pow(2, x), a + u * x) % p.N < p.N
  {
    hide FromBigEndian;
    var v, b := Pow(2, x), BnFromBytes(B);
    ProductOfResidue(k, v, p.N);
    DifferenceOfResidues(b, k * v, p.N);
    ResidueTwice(b - k * v, p.N);
    CongruentPowers((b - k * v) % p.N, b - k * v, a + u * x, p.N);
  }

  /** The client answers any B that is not zero modulo N with g^a and the proof of the key of (B - k g^x)^(a + u x). */
  lemma RespondsExactly(p: Group, username: Bytes, password: Bytes, salt: Bytes, B: Bytes, a: nat)
    ensures var k := FromBigEndian(p.sha(BigEndian(p.N, 256) + BigEndian(2, 256)));
            var x := FromBigEndian(p.sha(salt + p.sha(username + [0x3A] + password)));
            var A := BigEndian(Pow(2, a) % p.N, 256);
            var u := FromBigEndian(p.sha(A + B));
            var S := Pow(FromBigEndian(B) - k * Pow(2, x), a + u * x) % p.N;
            var K := p.sha(BigEndian(S, 256));
            ClientRespond(p, username, password, salt, B, a)
            == if FromBigEndian(B) % p.N == 0 then Raised else Fine(ClientProof(A, p.sha(A + B + K), K))
  {
    hide ComputeX, ComputeK, BnToBytes, BigEndian, FromBigEndian, ClientSecret, Pow;
    HashedNumbers(p, salt, username, password);
    var k, x := ComputeK(p).value, ComputeX(p, salt, username, password);
    InRange(p, ModExp(G, a, p.N));
    var u := ComputeU(p, BigEndian(Pow(2, a) % p.N, 256), B);
    ClientSecretInPowers(p, k, x, a, u, B);
    InRange(p, ClientSecret(p, k, x, a, u, B));
  }

  /** The client accepts exactly the proof of its own key; a server that proves another key is refused, unless the two
      transcripts collide. */
  lemma ClientAcceptsExactly(p: Group, proof: ClientProof, M2: Bytes, K: Hash)
    ensures ClientVerifyServer(p, proof, M2) <==> M2 == p.sha(proof.A + proof.M1 + proof.K)
    ensures ClientVerifyServer(p, proof, p.sha(proof.A + proof.M1 + K))
       <==> K == proof.K || Collides(p.sha, proof.A + proof.M1 + proof.K, proof.A + proof.M1 + K)
  {
    if proof.A + proof.M1 + proof.K == proof.A + proof.M1 + K { EqualParts(proof.A + proof.M1, proof.K, proof.A + proof.M1, K); }
  }

  // ---------------------------------------------------------------- passwords

  /** What x depends on: for salts of one length, two accounts have the same x exactly when they agree in salt and in the
      string of username and password, or one of the two pairs of strings that are hashed collides. */
  lemma PasswordBinding(p: Group, salt: Bytes, username: Bytes, password: Bytes, salt': Bytes, username': Bytes, password': Bytes)
    requires |salt| == |salt'|
    ensures var s, t := username + [0x3A] + password, username' + [0x3A] + password';
            ComputeX(p, salt, username, password) == ComputeX(p, salt', username', password')
            <==> || (salt == salt' && s == t)
                 || (salt == salt' && Collides(p.sha, s, t))
                 || Collides(p.sha, salt + p.sha(s), salt' + p.sha(t))
  {
    hide FromBigEndian;
    HashedNumbers(p, salt, username, password);
    HashedNumbers(p, salt', username', password');
    var s, t := username + [0x3A] + password, username' + [0x3A] + password';
    var m, n := salt + p.sha(s), salt' + p.sha(t);
    DigitsRoundTrip(p.sha(m));
    DigitsRoundTrip(p.sha(n));
    if m == n { EqualParts(salt, p.sha(s), salt', p.sha(t)); }
  }

  /** The secrets of a client with the exponent y and of a server whose verifier is 2^x, encoded. */
  function TheirSecret(p: Group, x: nat, a: nat, b: nat, u: nat): Bytes {
    BigEndian(Pow(Pow(2, a) * Pow(Pow(2, x), u), b) % p.N, 256)
  }

  function OwnSecret(p: Group, k: nat, x: nat, y: nat, a: nat, b: nat, u: nat): Bytes {
    BigEndian(Pow(k * Pow(2, x) + Pow(2, b) - k * Pow(2, y), a + u * y) % p.N, 256)
  }

  /** A client with any password, against the challenge for the verifier 2^x. */
  lemma AnswerAccepted(p: Group, username: Bytes, other: Bytes, salt: Bytes, x: nat, a: nat, b: nat)
    ensures var k := FromBigEndian(p.sha(BigEndian(p.N, 256) + BigEndian(2, 256)));
            var v := Pow(2, x) % p.N;
            var c := Challenge(b, v, BigEndian((k * v + Pow(2, b)) % p.N, 256));
            var r := ClientRespond(p, username, other, salt, c.B, a);
            var y := FromBigEndian(p.sha(salt + p.sha(username + [0x3A] + other)));
            r.Fine? ==>
              var A := r.value.A;
              var u := FromBigEndian(p.sha(A + c.B));
              var S, T := TheirSecret(p, x, a, b, u), OwnSecret(p, k, x, y, a, b, u);
              var verdict := ServerVerify(p, c, A, r.value.M1);
              && verdict.Fine?
              && (verdict.value.Some?
                  <==> u != 0 && (S == T || Collides(p.sha, T, S) || Collides(p.sha, A + c.B + p.sha(T), A + c.B + p.sha(S))))
  {
    hide BigEndian, FromBigEndian, ModExp, Pow, ServerVerify, ClientRespond;
    var k := FromBigEndian(p.sha(BigEndian(p.N, 256) + BigEndian(2, 256)));
    var y := FromBigEndian(p.sha(salt + p.sha(username + [0x3A] + other)));
    var v := Pow(2, x) % p.N;
    var B := (k * v + Pow(2, b)) % p.N;
    InRange(p, B);
    var c := Challenge(b, v, BigEndian(B, 256));
    RespondsExactly(p, username, other, salt, c.B, a);
    var r := ClientRespond(p, username, other, salt, c.B, a);
    if r.Fine? {
      var A := r.value.A;
      var u := FromBigEndian(p.sha(A + c.B));
      SecretsInPowers(p, k, x, y, a, b, u);
      VerifiesExactly(p, c, A, r.value.M1);
      InRange(p, Pow(2, a) % p.N);
      HonestANotZero(p, a);
      TranscriptBinding(p, A, c.B, p.sha(OwnSecret(p, k, x, y, a, b, u)), A, c.B, p.sha(TheirSecret(p, x, a, b, u)));
    }
  }

  /** A client that answers for a username with one password, when the account was registered with another: it is accepted
      exactly when u is not zero and its secret equals the server's, each with its own x, or the encodings of these two
      secrets collide, or the two transcripts. Different passwords have different x unless two named strings collide. */
  lemma OtherPassword(p: Group, username: Bytes, password: Bytes, other: Bytes, salt: Bytes, a: nat, b: nat)
    ensures Register(p, username, password, salt).Fine? && ServerBegin(p, Register(p, username, password, salt).value.verifier, b).Fine?
    ensures var c := ServerBegin(p, Register(p, username, password, salt).value.verifier, b).value;
            var r := ClientRespond(p, username, other, salt, c.B, a);
            var s, t := username + [0x3A] + password, username + [0x3A] + other;
            var x, y := FromBigEndian(p.sha(salt + p.sha(s))), FromBigEndian(p.sha(salt + p.sha(t)));
            && (r.Fine? ==>
                  var k := FromBigEndian(p.sha(BigEndian(p.N, 256) + BigEndian(2, 256)));
                  var A := r.value.A;
                  var u := FromBigEndian(p.sha(A + c.B));
                  var S, T := TheirSecret(p, x, a, b, u), OwnSecret(p, k, x, y, a, b, u);
                  var verdict := ServerVerify(p, c, A, r.value.M1);
                  && verdict.Fine?
                  && (verdict.value.Some?
                      <==> u != 0 && (S == T || Collides(p.sha, T, S) || Collides(p.sha, A + c.B + p.sha(T), A + c.B + p.sha(S)))))
            && (password != other ==> (x == y <==> Collides(p.sha, s, t) || Collides(p.sha, salt + p.sha(s), salt + p.sha(t))))
  {
    hide ComputeX, BigEndian, FromBigEndian, Pow, Register, ServerBegin, ServerVerify, ClientRespond, TheirSecret, OwnSecret;
    var s, t := username + [0x3A] + password, username + [0x3A] + other;
    HashedNumbers(p, salt, username, password);
    HashedNumbers(p, salt, username, other);
    RegistersExactly(p, username, password, salt);
    var x := FromBigEndian(p.sha(salt + p.sha(s)));
    InRange(p, Pow(2, x) % p.N);
    BeginsExactly(p, BigEndian(Pow(2, x) % p.N, 256), b);
    AnswerAccepted(p, username, other, salt, x, a, b);
    PasswordBinding(p, salt, username, password, salt, username, other);
    if password != other && s == t { EqualParts(username + [0x3A], password, username + [0x3A], other); }
  }

  lemma HonestANotZero(p: Group, a: nat)
    ensures (Pow(2, a) % p.N) % p.N != 0
  {
    PowerOfTwoNotZero(a, p.N);
    ResidueTwice(Pow(2, a), p.N);
  }

  /** Both secrets in terms of the private numbers only. */
  lemma SecretsInPowers(p: Group, k: nat, x: nat, y: nat, a: nat, b: nat, u: nat)
    ensures var v := Pow(2, x) % p.N;
            var A, B := Pow(2, a) % p.N, (k * v + Pow(2, b)) % p.N;
            && Pow(A * Pow(v, u), b) % p.N == Pow(Pow(2, a) * Pow(Pow(2, x), u), b) % p.N
            && Pow(B - k * Pow(2, y), a + u * y) % p.N
            == Pow(k * Pow(2, x) + Pow(2, b) - k * Pow(2, y), a + u * y) % p.N
  {
    hide Pow;
    var n := p.N;
    var v := Pow(2, x) % n;
    var A, B := Pow(2, a) % n, (k * v + Pow(2, b)) % n;
    ResidueTwice(Pow(2, x), n);
    CongruentPowers(v, Pow(2, x), u, n);
    ResidueTwice(Pow(2, a), n);
    CongruentFactors(A, Pow(2, a), Pow(v, u), Pow(Pow(2, x), u), n);
    CongruentPowers(A * Pow(v, u), Pow(2, a) * Pow(Pow(2, x), u), b, n);
    ProductOfResidue(k, Pow(2, x), n);
    SumOfResidues(k * v, Pow(2, b), n);
    SumOfResidues(k * Pow(2, x), Pow(2, b), n);
    var e := k * Pow(2, x) + Pow(2, b);
    assert B == e % n;
    SameDifference(e, k * Pow(2, y), n);
    CongruentPowers(B - k * Pow(2, y), e - k * Pow(2, y), a + u * y, n);
  }

  lemma SameDifference(e: int, d: int, n: nat)
    requires n > 1
    ensures (e % n - d) % n == (e - d) % n
  {
    var q := e / n;
    assert e == q * n + e % n;
    AddMultiple(e % n - d, q, n);
    assert e % n - d + q * n == e - d;
  }
}
