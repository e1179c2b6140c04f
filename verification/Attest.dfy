/** server/pkg/attest/dsse.go: the DSSE pre-authentication encoding, signing and verifying. Go
    strings are byte strings here. */
module Attest {
  import opened Codecs
  import opened Options

  const SP: Byte := 32

  /** "DSSEv1 " */
  const HEADER: Bytes := [68, 83, 83, 69, 118, 49, 32]

  /** PAE(type, body) as the DSSE v1 protocol's "Signature Definition" section gives it. */
  function PreAuth(payloadType: Bytes, body: Bytes): Bytes {
    HEADER + (Decimal(|payloadType|) + [SP] + (payloadType + ([SP] + (Decimal(|body|) + [SP] + body))))
  }

  /** `pae`, as a buffer that grows by appends. */
  method Pae(payloadType: Bytes, body: Bytes) returns (out: Bytes)
    ensures out == PreAuth(payloadType, body)
  {
    hide Decimal;
    out := HEADER;
    out := out + Decimal(|payloadType|);
    out := out + [SP];
    out := out + payloadType;
    out := out + [SP];
    out := out + Decimal(|body|);
    out := out + [SP];
    out := out + body;
  }

  /** The byte after a digit field is the space, and no byte in it is. */
  lemma FieldByte(n: nat, x: Bytes, i: nat)
    requires i <= |Decimal(n)|
    ensures (Decimal(n) + [SP] + x)[i] == SP <==> i == |Decimal(n)|
  {
    if i < |Decimal(n)| { assert IsDigit(Decimal(n)[i]); }
  }

  /** Digits never contain the space that ends them, so a length field reads back one way only. */
  lemma LengthField(m: nat, x: Bytes, n: nat, y: Bytes)
    requires Decimal(m) + [SP] + x == Decimal(n) + [SP] + y
    ensures m == n && x == y
  {
    var a, b := Decimal(m), Decimal(n);
    var k := if |a| < |b| then |a| else |b|;
    FieldByte(m, x, k);
    FieldByte(n, y, k);
    assert |a| == |b|;
    hide Decimal;
    assert a + ([SP] + x) == a + [SP] + x && b + ([SP] + y) == b + [SP] + y;
    SplitAt(a, [SP] + x, b, [SP] + y);
    SplitAt([SP], x, [SP], y);
    DecimalValue(m);
    DecimalValue(n);
  }

  lemma SplitAt(a: Bytes, x: Bytes, b: Bytes, y: Bytes)
    requires a + x == b + y && |a| == |b|
    ensures a == b && x == y
  {
    assert a == (a + x)[..|a|] && b == (b + y)[..|b|];
    assert x == (a + x)[|a|..] && y == (b + y)[|b|..];
  }

  /** Distinct (payload type, body) pairs never share a signed message. */
  lemma PreAuthInjective(t1: Bytes, b1: Bytes, t2: Bytes, b2: Bytes)
    ensures PreAuth(t1, b1) == PreAuth(t2, b2) <==> t1 == t2 && b1 == b2
  {
    if PreAuth(t1, b1) == PreAuth(t2, b2) {
      hide Decimal;
      var f1, f2 := Decimal(|b1|) + [SP] + b1, Decimal(|b2|) + [SP] + b2;
      SplitAt(HEADER, Decimal(|t1|) + [SP] + (t1 + ([SP] + f1)), HEADER, Decimal(|t2|) + [SP] + (t2 + ([SP] + f2)));
      LengthField(|t1|, t1 + ([SP] + f1), |t2|, t2 + ([SP] + f2));
      SplitAt(t1, [SP] + f1, t2, [SP] + f2);
      SplitAt([SP], f1, [SP], f2);
      LengthField(|b1|, b1, |b2|, b2);
    }
  }

  datatype Signature = Signature(keyId: string, sig: Bytes)
  datatype Envelope = Envelope(payloadType: Bytes, payload: Bytes, signatures: seq<Signature>)

  /** A signature scheme; what it promises is `Correct`, nothing about its strength. */
  datatype Scheme<!Private, !Public> = Scheme(
    sign: (Private, Bytes) -> Bytes, verify: (Public, Bytes, Bytes) -> bool, publicOf: Private -> Public)

  ghost predicate Correct<Private(!new), Public>(s: Scheme<Private, Public>) {
    forall k, m :: s.verify(s.publicOf(k), m, s.sign(k, m))
  }

  /** `Sign` on a marshalled statement. */
  method Sign<Private, Public>(s: Scheme<Private, Public>, payloadType: Bytes, body: Bytes, keyId: string, key: Private)
      returns (env: Envelope)
    ensures env.payloadType == payloadType && Decode(Standard, env.payload) == Some(body)
    ensures |env.signatures| == 1 && env.signatures[0].keyId == keyId
    ensures Decode(Standard, env.signatures[0].sig) == Some(s.sign(key, PreAuth(payloadType, body)))
  {
    var msg := Pae(payloadType, body);
    var sig := s.sign(key, msg);
    RoundTrip(Standard, body);
    RoundTrip(Standard, sig);
    env := Envelope(payloadType, Encode(Standard, body), [Signature(keyId, Encode(Standard, sig))]);
  }

  datatype VerifyResult = Verified | BadPayload | NoSignature | BadSignatureEncoding | WrongSignature

  /** The first signature with the key id. */
  ghost predicate FirstFor(env: Envelope, keyId: string, i: nat) {
    i < |env.signatures| && env.signatures[i].keyId == keyId
    && forall j :: 0 <= j < i ==> env.signatures[j].keyId != keyId
  }

  /** The envelope carries, first for the key id, a signature of its own type and payload. */
  ghost predicate Authentic<Private, Public>(s: Scheme<Private, Public>, env: Envelope, keyId: string, pub: Public) {
    exists i: nat, body, sig ::
      FirstFor(env, keyId, i) && Decode(Standard, env.payload) == Some(body)
      && Decode(Standard, env.signatures[i].sig) == Some(sig) && s.verify(pub, PreAuth(env.payloadType, body), sig)
  }

  /** `Verify` succeeds exactly on authentic envelopes, and says what else is wrong. */
  method Verify<Private, Public>(s: Scheme<Private, Public>, env: Envelope, keyId: string, pub: Public)
      returns (r: VerifyResult)
    ensures r.Verified? <==> Authentic(s, env, keyId, pub)
    ensures r.BadPayload? <==> Decode(Standard, env.payload).None?
    ensures r.NoSignature? <==>
              Decode(Standard, env.payload).Some? && forall i :: 0 <= i < |env.signatures| ==>
                env.signatures[i].keyId != keyId
    ensures r.BadSignatureEncoding? <==>
              Decode(Standard, env.payload).Some?
              && exists i: nat :: FirstFor(env, keyId, i) && Decode(Standard, env.signatures[i].sig).None?
    ensures r.WrongSignature? <==>
              && Decode(Standard, env.payload).Some?
              && (exists i: nat :: FirstFor(env, keyId, i) && Decode(Standard, env.signatures[i].sig).Some?)
              && !Authentic(s, env, keyId, pub)
  {
    var body := Decode(Standard, env.payload);
    if body.None? { return BadPayload; }
    var found := false;
    var sigB64: Bytes := [];
    ghost var at := 0;
    for i := 0 to |env.signatures|
      invariant !found
      invariant forall j :: 0 <= j < i ==> env.signatures[j].keyId != keyId
    {
      if env.signatures[i].keyId == keyId {
        sigB64, found, at := env.signatures[i].sig, true, i;
        break;
      }
    }
    if !found { return NoSignature; }
    assert FirstFor(env, keyId, at);
    assert forall i: nat :: FirstFor(env, keyId, i) ==> i == at;
    var sig := Decode(Standard, sigB64);
    if sig.None? { return BadSignatureEncoding; }
    var msg := Pae(env.payloadType, body.value);
    r := if s.verify(pub, msg, sig.value) then Verified else WrongSignature;
  }

  /** What is signed verifies, with the matching public key. */
  method SignThenVerify<Private(!new), Public>(s: Scheme<Private, Public>, payloadType: Bytes, body: Bytes,
                                               keyId: string, key: Private)
      returns (r: VerifyResult)
    requires Correct(s)
    ensures r.Verified?
  {
    var env := Sign(s, payloadType, body, keyId, key);
    assert FirstFor(env, keyId, 0);
    r := Verify(s, env, keyId, s.publicOf(key));
  }

  /** An authentic envelope pins down what was signed: any two that rest on the same message
      carry the same type and the same payload. */
  lemma SameMessageSamePayload(env1: Envelope, env2: Envelope, b1: Bytes, b2: Bytes)
    requires Decode(Standard, env1.payload) == Some(b1) && Decode(Standard, env2.payload) == Some(b2)
    requires PreAuth(env1.payloadType, b1) == PreAuth(env2.payloadType, b2)
    ensures env1.payloadType == env2.payloadType && b1 == b2
  {
    PreAuthInjective(env1.payloadType, b1, env2.payloadType, b2);
  }

  /** The shape of the protocol's own example, a type of 29 bytes and a body of 11:
      "DSSEv1 29 http://example.com/HelloWorld 11 hello world". */
  lemma ProtocolExample(payloadType: Bytes, body: Bytes)
    requires |payloadType| == 29 && |body| == 11
    ensures PreAuth(payloadType, body) == Ascii("DSSEv1 29 ") + payloadType + Ascii(" 11 ") + body
  {
    assert Decimal(29) == Decimal(2) + [ZERO + 9] == [50, 57];
    assert Decimal(11) == Decimal(1) + [ZERO + 1] == [49, 49];
    assert Ascii("DSSEv1 29 ") == [68, 83, 83, 69, 118, 49, 32, 50, 57, 32] == HEADER + [50, 57] + [SP];
    assert Ascii(" 11 ") == [SP] + [49, 49] + [SP];
    hide Decimal, HEADER;
    assert PreAuth(payloadType, body)
        == HEADER + ([50, 57] + [SP] + (payloadType + ([SP] + ([49, 49] + [SP] + body))));
  }
}
