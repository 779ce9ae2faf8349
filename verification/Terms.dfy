/** Results, octets and certificates shared by every other module.

    Cryptography is symbolic. A digest, a certificate body and a request body are sequences of
    octets that remember what they were computed from, so two of them are equal exactly when
    their sources are equal. Everything else (labels, session ids, DER headers) is literal. */
module Terms {

  datatype Result<+T, +E> = Ok(value: T) | Err(error: E)

  datatype Option<+T> = None | Some(value: T)

  /** `order` lists the elements of `s`, each once: one way a map or a set may be walked. */
  ghost predicate Enumerates<T>(order: seq<T>, s: set<T>)
  {
    && (forall i | 0 <= i < |order| :: order[i] in s)
    && (forall x | x in s :: x in order)
    && forall i, j | 0 <= i < j < |order| :: order[i] != order[j]
  }

  newtype Byte = b: int | 0 <= b < 256

  /** An instant or a duration, in nanoseconds. */
  type Time = int

  const SECOND: Time := 1_000_000_000
  const MINUTE: Time := 60 * SECOND
  const HOUR: Time := 60 * MINUTE

  datatype PublicKey = P256(id: nat) | OtherKey(id: nat)

  datatype Name = Name(commonName: string, organization: seq<string>)

  /** The signed part of a certificate. */
  datatype Tbs = Tbs(
    serial: nat,
    subject: Name,
    issuer: Name,
    notBefore: Time,
    notAfter: Time,
    isCA: bool,
    uris: seq<string>,
    dnsNames: seq<string>,
    publicKey: PublicKey)

  /** A signature that checks out under `key` for exactly the content `over`. */
  datatype Signature = Signature(key: PublicKey, over: Tbs)

  /** The DER content of a certificate has `pad + 1` octets. */
  datatype Certificate = Certificate(tbs: Tbs, signature: Signature, pad: Pad)

  /** A PKCS#10 request whose signature checks out under `signedBy`. */
  datatype CertRequest = CertRequest(commonName: string, publicKey: PublicKey, signedBy: PublicKey, pad: Pad)

  datatype Octet =
    | Lit(b: Byte)
    | Digest(of: seq<Octet>, i: nat)
    | CertPart(cert: Certificate, i: nat)
    | RequestPart(req: CertRequest, i: nat)

  type Bytes = seq<Octet>

  /** DER lengths of at most four octets, the most the X.509 parser reads. */
  const LENGTH_LIMIT := 0x1_0000_0000

  type Pad = n: nat | n + 1 < LENGTH_LIMIT

  function Sha256(m: Bytes): (h: Bytes)
  {
    seq(32, i requires 0 <= i => Digest(m, i))
  }

  lemma Sha256Injective(m: Bytes, m': Bytes)
    requires Sha256(m) == Sha256(m')
    ensures m == m'
  {
    assert Sha256(m)[0] == Digest(m, 0);
    assert Sha256(m')[0] == Digest(m', 0);
  }

  predicate Ascii(s: string)
  {
    forall i | 0 <= i < |s| :: s[i] as int < 128
  }

  function Text(s: string): (m: Bytes)
    requires Ascii(s)
  {
    seq(|s|, i requires 0 <= i < |s| => Lit(s[i] as int as Byte))
  }

  function CertContent(c: Certificate): Bytes
  {
    seq(c.pad + 1, i requires 0 <= i => CertPart(c, i))
  }

  function RequestContent(r: CertRequest): Bytes
  {
    seq(r.pad + 1, i requires 0 <= i => RequestPart(r, i))
  }
}

/** Definite-length DER elements (sections 8.1.3 and 10.1 of X.690). */
module Der {
  import opened Terms

  const SEQUENCE: Byte := 0x30

  /** Big-endian base-256 digits without leading zeros. */
  function Digits(n: nat): (ds: seq<Byte>)
  {
    if n == 0 then [] else Digits(n / 256) + [(n % 256) as Byte]
  }

  function Value(ds: seq<Byte>): nat
  {
    if ds == [] then 0 else Value(ds[..|ds| - 1]) * 256 + ds[|ds| - 1] as nat
  }

  function Lits(ds: seq<Byte>): Bytes
  {
    seq(|ds|, i requires 0 <= i < |ds| => Lit(ds[i]))
  }

  function LengthOctets(n: nat): Bytes
    requires n < LENGTH_LIMIT
  {
    if n < 128 then [Lit(n as Byte)]
    else
      DigitsBound(n, 4);
      [Lit((128 + |Digits(n)|) as Byte)] + Lits(Digits(n))
  }

  function Element(content: Bytes): Bytes
    requires |content| < LENGTH_LIMIT
  {
    [Lit(SEQUENCE)] + LengthOctets(|content|) + content
  }

  predicate AllLit(s: Bytes)
  {
    forall i | 0 <= i < |s| :: s[i].Lit?
  }

  function Unlit(s: Bytes): seq<Byte>
    requires AllLit(s)
  {
    seq(|s|, i requires 0 <= i < |s| => s[i].b)
  }

  /** Size of header plus content of the element at the front of `s`, read from its header. */
  function ElementSize(s: Bytes): Option<nat>
  {
    if |s| < 2 || !s[0].Lit? || !s[1].Lit? then None
    else if s[1].b < 128 then Some(2 + s[1].b as nat)
    else
      var k := s[1].b as nat - 128;
      if k == 0 || k > 4 || |s| < 2 + k || !AllLit(s[2..2 + k]) then None
      else
        var ds := Unlit(s[2..2 + k]);
        if ds[0] == 0 || Value(ds) < 128 then None  // not the shortest form
        else Some(2 + k + Value(ds))
  }

  /** `s` is one element and nothing after it. */
  predicate Complete(s: Bytes)
  {
    ElementSize(s) == Some(|s|)
  }

  function Content(s: Bytes): Bytes
    requires Complete(s)
  {
    if s[1].b < 128 then s[2..] else s[2 + (s[1].b as nat - 128)..]
  }

  lemma {:induction false} DigitsBound(n: nat, k: nat)
    requires n < Pow256(k)
    ensures |Digits(n)| <= k
  {
    if n != 0 {
      DigitsBound(n / 256, k - 1);
    }
  }

  function Pow256(k: nat): nat
  {
    if k == 0 then 1 else 256 * Pow256(k - 1)
  }

  lemma {:induction false} DigitsValue(n: nat)
    ensures Value(Digits(n)) == n
    ensures n != 0 ==> |Digits(n)| > 0 && Digits(n)[0] != 0
  {
    if n != 0 {
      DigitsValue(n / 256);
      assert Digits(n)[..|Digits(n)| - 1] == Digits(n / 256);
    }
  }

  /** The three parts of an element with a long header. */
  lemma LongParts(ds: seq<Byte>, content: Bytes)
    requires |ds| <= 4
    ensures var k := |ds|;
            var s := [Lit(SEQUENCE)] + ([Lit((128 + k) as Byte)] + Lits(ds)) + content;
            && |s| == 2 + k + |content| && s[0] == Lit(SEQUENCE) && s[1] == Lit((128 + k) as Byte)
            && s[2..2 + k] == Lits(ds) && s[2 + k..] == content
  {
  }

  lemma UnlitLits(ds: seq<Byte>)
    ensures AllLit(Lits(ds)) && Unlit(Lits(ds)) == ds
  {
  }

  /** What the long header of `s` says once its digits are known. */
  lemma LongSize(s: Bytes, ds: seq<Byte>)
    requires 1 <= |ds| <= 4 && ds[0] != 0 && Value(ds) >= 128
    requires |s| >= 2 + |ds| && s[0].Lit? && s[1] == Lit((128 + |ds|) as Byte) && s[2..2 + |ds|] == Lits(ds)
    ensures ElementSize(s) == Some(2 + |ds| + Value(ds))
  {
    UnlitLits(ds);
  }

  /** An element whose long header counts exactly the octets after it. */
  lemma LongElement(s: Bytes, ds: seq<Byte>)
    requires 1 <= |ds| <= 4 && ds[0] != 0 && Value(ds) >= 128
    requires |s| == 2 + |ds| + Value(ds) && s[0].Lit? && s[1] == Lit((128 + |ds|) as Byte) && s[2..2 + |ds|] == Lits(ds)
    ensures Complete(s) && Content(s) == s[2 + |ds|..]
  {
    LongSize(s, ds);
    assert s[1].b as nat - 128 == |ds|;
  }

  lemma LongDigits(n: nat)
    requires 128 <= n < LENGTH_LIMIT
    ensures var ds := Digits(n); 1 <= |ds| <= 4 && ds[0] != 0 && Value(ds) == n
  {
    assert Pow256(4) == LENGTH_LIMIT;
    DigitsBound(n, 4);
    DigitsValue(n);
  }

  lemma LongForm(content: Bytes)
    requires 128 <= |content| < LENGTH_LIMIT
    ensures Complete(Element(content)) && Content(Element(content)) == content
  {
    LongDigits(|content|);
    LongParts(Digits(|content|), content);
    LongElement(Element(content), Digits(|content|));
  }

  lemma ShortForm(content: Bytes)
    requires |content| < 128
    ensures Complete(Element(content)) && Content(Element(content)) == content
  {
    var s := Element(content);
    assert s == [Lit(SEQUENCE), Lit(|content| as Byte)] + content;
  }

  /** What the encoder writes is one complete element with that content. */
  lemma ElementRoundTrip(content: Bytes)
    requires |content| < LENGTH_LIMIT
    ensures Complete(Element(content)) && Content(Element(content)) == content
  {
    if |content| < 128 {
      ShortForm(content);
    } else {
      LongForm(content);
    }
  }

  lemma {:induction false} DigitsOfValue(ds: seq<Byte>)
    requires ds == [] || ds[0] != 0
    ensures Digits(Value(ds)) == ds && (ds != [] ==> Value(ds) > 0)
  {
    if ds != [] {
      var n := |ds| - 1;
      var front, last := ds[..n], ds[n] as nat;
      DigitsOfValue(front);
      var v := Value(front) * 256 + last;
      assert Value(ds) == v && v / 256 == Value(front) && v % 256 == last;
      assert v > 0;
      assert ds == front + [ds[n]];
    }
  }

  lemma LitsUnlit(s: Bytes)
    requires AllLit(s)
    ensures Lits(Unlit(s)) == s
  {
  }

  lemma {:induction false} ValueBound(ds: seq<Byte>)
    ensures Value(ds) < Pow256(|ds|)
  {
    if ds != [] {
      ValueBound(ds[..|ds| - 1]);
    }
  }

  lemma {:induction false} PowerBound(k: nat)
    requires k <= 4
    ensures Pow256(k) <= LENGTH_LIMIT
  {
    assert Pow256(1) == 256 && Pow256(2) == 65536 && Pow256(3) == 16777216 && Pow256(4) == LENGTH_LIMIT;
  }

  lemma LengthOf(n: nat, ds: seq<Byte>)
    requires 128 <= n < LENGTH_LIMIT && Digits(n) == ds && |ds| <= 4
    ensures LengthOctets(n) == [Lit((128 + |ds|) as Byte)] + Lits(ds)
  {
  }

  lemma LongLength(ds: seq<Byte>)
    requires 1 <= |ds| <= 4 && ds[0] != 0 && Value(ds) >= 128
    ensures Value(ds) < LENGTH_LIMIT && LengthOctets(Value(ds)) == [Lit((128 + |ds|) as Byte)] + Lits(ds)
  {
    ValueBound(ds);
    PowerBound(|ds|);
    DigitsOfValue(ds);
    LengthOf(Value(ds), ds);
  }

  lemma CanonicalLong(s: Bytes)
    requires Complete(s) && s[0] == Lit(SEQUENCE) && s[1].b >= 128
    ensures |Content(s)| < LENGTH_LIMIT && Element(Content(s)) == s
  {
    var k := s[1].b as nat - 128;
    var ds := Unlit(s[2..2 + k]);
    LongLength(ds);
    LitsUnlit(s[2..2 + k]);
    assert s == [s[0]] + ([s[1]] + s[2..2 + k]) + s[2 + k..];
  }

  /** Every complete sequence is the one the encoder writes for its content: no other header is read. */
  lemma CompleteIsCanonical(s: Bytes)
    requires Complete(s) && s[0] == Lit(SEQUENCE)
    ensures |Content(s)| < LENGTH_LIMIT && Element(Content(s)) == s
  {
    if s[1].b < 128 {
      assert s == [s[0]] + [s[1]] + s[2..];
    } else {
      CanonicalLong(s);
    }
  }

  /** The size of an element is settled by its own header, whatever follows. */
  lemma SizeIsLocal(s: Bytes, t: Bytes)
    requires ElementSize(s).Some?
    ensures ElementSize(s + t) == ElementSize(s)
  {
    assert s[0] == (s + t)[0] && s[1] == (s + t)[1];
    if s[1].b >= 128 {
      var k := s[1].b as nat - 128;
      assert (s + t)[2..2 + k] == s[2..2 + k];
    }
  }

  /** No complete element is a proper prefix of another, so a concatenation splits one way. */
  lemma SplitsOneWay(a: Bytes, b: Bytes, a': Bytes, b': Bytes)
    requires Complete(a) && Complete(a')
    requires a + b == a' + b'
    ensures a == a' && b == b'
  {
    SizeIsLocal(a, b);
    SizeIsLocal(a', b');
    assert (a + b)[..|a|] == a && (a' + b')[..|a'|] == a';
    assert (a + b)[|a|..] == b && (a' + b')[|a'|..] == b';
  }

  /** The DER encoding of a certificate. */
  function Raw(c: Certificate): Bytes
  {
    Element(CertContent(c))
  }

  function RawRequest(r: CertRequest): Bytes
  {
    Element(RequestContent(r))
  }

  /** A certificate parses from exactly its own encoding: no trailing octets, no other header. */
  function ParseCertificate(der: Bytes): (r: Option<Certificate>)
    ensures r.Some? ==> Complete(der) && der == Raw(r.value)
  {
    if Complete(der) && |Content(der)| > 0 && Content(der)[0].CertPart? then
      var c := Content(der)[0].cert;
      ElementRoundTrip(CertContent(c));
      if der == Raw(c) then Some(c) else None
    else None
  }

  function ParseRequest(der: Bytes): (r: Option<CertRequest>)
    ensures r.Some? ==> Complete(der) && der == RawRequest(r.value)
  {
    if Complete(der) && |Content(der)| > 0 && Content(der)[0].RequestPart? then
      var q := Content(der)[0].req;
      ElementRoundTrip(RequestContent(q));
      if der == RawRequest(q) then Some(q) else None
    else None
  }

  lemma ParseCertificateRoundTrip(c: Certificate)
    ensures ParseCertificate(Raw(c)) == Some(c)
  {
    ElementRoundTrip(CertContent(c));
    assert CertContent(c)[0] == CertPart(c, 0);
  }

  lemma ParseRequestRoundTrip(r: CertRequest)
    ensures ParseRequest(RawRequest(r)) == Some(r)
  {
    ElementRoundTrip(RequestContent(r));
    assert RequestContent(r)[0] == RequestPart(r, 0);
  }

  lemma RawInjective(c: Certificate, c': Certificate)
    requires Raw(c) == Raw(c')
    ensures c == c'
  {
    ParseCertificateRoundTrip(c);
    ParseCertificateRoundTrip(c');
  }

  /** The last octet of an encoding names the whole certificate. */
  lemma RawEnd(c: Certificate)
    ensures |Raw(c)| > 0 && Raw(c)[|Raw(c)| - 1] == CertPart(c, c.pad)
  {
    var s := Raw(c);
    assert s == ([Lit(SEQUENCE)] + LengthOctets(c.pad + 1)) + CertContent(c);
    assert s[|s| - 1] == CertContent(c)[c.pad];
  }

  lemma RawRequestEnd(r: CertRequest)
    ensures |RawRequest(r)| > 0 && RawRequest(r)[|RawRequest(r)| - 1] == RequestPart(r, r.pad)
  {
    var s := RawRequest(r);
    assert s == ([Lit(SEQUENCE)] + LengthOctets(r.pad + 1)) + RequestContent(r);
    assert s[|s| - 1] == RequestContent(r)[r.pad];
  }

  /** Read from the right, a certificate at the end of a string is unambiguous too. */
  lemma EndsOneWay(x: Bytes, c: Certificate, x': Bytes, c': Certificate)
    requires x + Raw(c) == x' + Raw(c')
    ensures c == c' && x == x'
  {
    RawEnd(c);
    RawEnd(c');
    var s, s' := x + Raw(c), x' + Raw(c');
    assert s[|s| - 1] == Raw(c)[|Raw(c)| - 1];
    assert s'[|s'| - 1] == Raw(c')[|Raw(c')| - 1];
    assert s[..|x|] == x && s'[..|x'|] == x';
  }

  lemma RequestEndsOneWay(x: Bytes, r: CertRequest, x': Bytes, r': CertRequest)
    requires x + RawRequest(r) == x' + RawRequest(r')
    ensures r == r' && x == x'
  {
    RawRequestEnd(r);
    RawRequestEnd(r');
    var s, s' := x + RawRequest(r), x' + RawRequest(r');
    assert s[|s| - 1] == RawRequest(r)[|RawRequest(r)| - 1];
    assert s'[|s'| - 1] == RawRequest(r')[|RawRequest(r')| - 1];
    assert s[..|x|] == x && s'[..|x'|] == x';
  }
}
