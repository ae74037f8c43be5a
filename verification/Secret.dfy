/** Secret roles, verifiers and the digest comparison. The digest is any
    function of the text hashed; where it matters, one without collisions. */
module Secret {

  datatype Role = EnrollmentCode | ClientSecret | OperatorSecret

  function Domain(role: Role): string {
    match role
    case EnrollmentCode => "jaynshare/enrollment"
    case ClientSecret => "jaynshare/client"
    case OperatorSecret => "jaynshare/operator"
  }

  type Digest = seq<bv8>

  type Hash = string -> Digest

  ghost predicate CollisionFree(h: Hash) {
    forall x, y :: h(x) == h(y) ==> x == y
  }

  /** The durable form of a secret. */
  datatype Verifier = Verifier(domain: string, digest: Digest)

  const NUL := ['\0']

  /** The digest is over the domain, one zero byte and the secret. */
  function NewVerifier(h: Hash, role: Role, secret: string): Verifier {
    Verifier(Domain(role), h(Domain(role) + NUL + secret))
  }

  predicate Matches(h: Hash, v: Verifier, role: Role, secret: string) {
    v.domain == Domain(role) && ConstantTimeEq(v.digest, NewVerifier(h, role, secret).digest)
  }

  /** Every byte pair is folded in whatever the earlier ones were. */
  function Difference(a: Digest, b: Digest, acc: bv8): bv8
    requires |a| == |b|
  {
    if a == [] then acc else Difference(a[1..], b[1..], acc | (a[0] ^ b[0]))
  }

  predicate ConstantTimeEq(a: Digest, b: Digest) {
    |a| == |b| && Difference(a, b, 0) == 0
  }

  lemma {:induction false} DifferenceIsZeroOnEqual(a: Digest, b: Digest, acc: bv8)
    requires |a| == |b|
    ensures Difference(a, b, acc) == 0 <==> acc == 0 && a == b
  {
    if a == [] {
    } else {
      DifferenceIsZeroOnEqual(a[1..], b[1..], acc | (a[0] ^ b[0]));
      assert acc | (a[0] ^ b[0]) == 0 <==> acc == 0 && a[0] == b[0];
      assert a == [a[0]] + a[1..] && b == [b[0]] + b[1..];
    }
  }

  /** The fold that never stops early decides equality. */
  lemma ConstantTimeEqIsEquality(a: Digest, b: Digest)
    ensures ConstantTimeEq(a, b) <==> a == b
  {
    if |a| == |b| {
      DifferenceIsZeroOnEqual(a, b, 0);
    }
  }

  /** A zero byte after a prefix without one marks where the prefix ends. */
  lemma FramingIsInjective(a: string, b: string, s: string, t: string)
    requires '\0' !in a && '\0' !in b && a + NUL + s == b + NUL + t
    ensures a == b && s == t
  {
    var x, y := a + NUL + s, b + NUL + t;
    assert x[|a|] == '\0' && y[|b|] == '\0';
    assert forall i :: 0 <= i < |a| ==> x[i] == a[i];
    assert forall i :: 0 <= i < |b| ==> y[i] == b[i];
    assert |a| == |b|;
    assert a == x[..|a|] && b == y[..|b|];
    assert s == x[|a| + 1..] && t == y[|b| + 1..];
  }

  /** The text digested, spelled out: verifiers stored by one build are read by the next. */
  lemma VerifierIs(h: Hash, secret: string)
    ensures NewVerifier(h, EnrollmentCode, secret) == Verifier("jaynshare/enrollment", h("jaynshare/enrollment\0" + secret))
    ensures NewVerifier(h, ClientSecret, secret) == Verifier("jaynshare/client", h("jaynshare/client\0" + secret))
    ensures NewVerifier(h, OperatorSecret, secret) == Verifier("jaynshare/operator", h("jaynshare/operator\0" + secret))
  {
    assert "jaynshare/enrollment" + NUL + secret == "jaynshare/enrollment\0" + secret;
    assert "jaynshare/client" + NUL + secret == "jaynshare/client\0" + secret;
    assert "jaynshare/operator" + NUL + secret == "jaynshare/operator\0" + secret;
  }

  /** A verifier matches exactly the role and the secret it was made from. */
  lemma MatchesOnlyItsOwn(h: Hash, role: Role, secret: string, role': Role, secret': string)
    requires CollisionFree(h)
    ensures Matches(h, NewVerifier(h, role, secret), role', secret') <==> role == role' && secret == secret'
  {
    var own, other := NewVerifier(h, role, secret).digest, NewVerifier(h, role', secret').digest;
    ConstantTimeEqIsEquality(own, other);
    DomainsApart(role, role');
    hide ConstantTimeEq, Domain;
    if own == other {
      assert h(Domain(role) + NUL + secret) == h(Domain(role') + NUL + secret');
      FramingIsInjective(Domain(role), Domain(role'), secret, secret');
    }
  }

  lemma DomainsApart(role: Role, role': Role)
    ensures '\0' !in Domain(role) && '\0' !in Domain(role')
    ensures Domain(role) == Domain(role') <==> role == role'
  {
    assert |Domain(EnrollmentCode)| == 20 && |Domain(ClientSecret)| == 16 && |Domain(OperatorSecret)| == 18;
  }
}
