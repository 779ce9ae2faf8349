/** The two MACs of the pairing protocol and the octet strings they cover. */
module Messages {
  import opened Terms
  import Der

  const SESSION_ID_LEN := 16
  const SALT_LEN := 16
  const HASH_LEN := 32

  const LABEL_CLIENT := "lcm-pair-v1/client"
  const LABEL_SERVER := "lcm-pair-v1/server"

  /** The Argon2id output for a code and a salt. */
  datatype Key = Argon2(code: string, salt: Bytes)

  /** What arrives in a MAC field: a MAC somebody computed, or octets that are no MAC at all. */
  datatype Tag = Hmac(key: Key, message: Bytes) | Junk(octets: Bytes)

  function DeriveKey(code: string, salt: Bytes): Key
  {
    Argon2(code, salt)
  }

  function CertHash(cert: Certificate): Bytes
  {
    Sha256(Der.Raw(cert))
  }

  function ClientMessage(session: Bytes, serverHash: Bytes, csr: Bytes): Bytes
  {
    Text(LABEL_CLIENT) + session + serverHash + csr
  }

  function ServerMessage(session: Bytes, ca: Bytes, node: Bytes): Bytes
  {
    Text(LABEL_SERVER) + session + ca + node
  }

  function ClientMac(key: Key, session: Bytes, serverHash: Bytes, csr: Bytes): Tag
  {
    Hmac(key, ClientMessage(session, serverHash, csr))
  }

  function ServerMac(key: Key, session: Bytes, ca: Bytes, node: Bytes): Tag
  {
    Hmac(key, ServerMessage(session, ca, node))
  }

  /** Equal strings with front parts of equal length split alike. */
  lemma CutAt(a: Bytes, b: Bytes, a': Bytes, b': Bytes)
    requires |a| == |a'| && a + b == a' + b'
    ensures a == a' && b == b'
  {
    assert (a + b)[..|a|] == a && (a' + b')[..|a'|] == a';
    assert (a + b)[|a|..] == b && (a' + b')[|a'|..] == b';
  }

  lemma ClientParts(session: Bytes, hash: Bytes, csr: Bytes)
    ensures ClientMessage(session, hash, csr) == Text(LABEL_CLIENT) + (session + (hash + csr))
  {
  }

  lemma ServerParts(session: Bytes, ca: Bytes, node: Bytes)
    ensures ServerMessage(session, ca, node) == Text(LABEL_SERVER) + (session + (ca + node))
  {
  }

  /** With 16-octet sessions and 32-octet hashes the client message says which three parts it has. */
  lemma ClientMessageDetermines(session: Bytes, hash: Bytes, csr: Bytes,
                                session': Bytes, hash': Bytes, csr': Bytes)
    requires |session| == |session'| == SESSION_ID_LEN && |hash| == |hash'| == HASH_LEN
    requires ClientMessage(session, hash, csr) == ClientMessage(session', hash', csr')
    ensures session == session' && hash == hash' && csr == csr'
  {
    ClientParts(session, hash, csr);
    ClientParts(session', hash', csr');
    CutAt(Text(LABEL_CLIENT), session + (hash + csr), Text(LABEL_CLIENT), session' + (hash' + csr'));
    CutAt(session, hash + csr, session', hash' + csr');
    CutAt(hash, csr, hash', csr');
  }

  /** With 16-octet sessions and a CA that is one complete DER element, so does the server message. */
  lemma ServerMessageDetermines(session: Bytes, ca: Bytes, node: Bytes,
                                session': Bytes, ca': Bytes, node': Bytes)
    requires |session| == |session'| == SESSION_ID_LEN && Der.Complete(ca) && Der.Complete(ca')
    requires ServerMessage(session, ca, node) == ServerMessage(session', ca', node')
    ensures session == session' && ca == ca' && node == node'
  {
    ServerParts(session, ca, node);
    ServerParts(session', ca', node');
    CutAt(Text(LABEL_SERVER), session + (ca + node), Text(LABEL_SERVER), session' + (ca' + node'));
    CutAt(session, ca + node, session', ca' + node');
    Der.SplitsOneWay(ca, node, ca', node');
  }

  /** Where the parts of the two messages stand. */
  lemma ClientLayout(session: Bytes, hash: Bytes, csr: Bytes)
    requires |session| == 16 && |hash| == 32
    ensures var m := ClientMessage(session, hash, csr);
            && |m| == 66 + |csr| && m[..18] == Text("lcm-pair-v1/client")
            && m[18..34] == session && m[34..66] == hash && m[66..] == csr
  {
    var m := ClientMessage(session, hash, csr);
    assert |Text(LABEL_CLIENT)| == 18;
    assert m[..18] == Text(LABEL_CLIENT) && m[18..34] == session && m[34..66] == hash && m[66..] == csr;
  }

  lemma ServerLayout(session: Bytes, ca: Bytes, node: Bytes)
    requires |session| == 16
    ensures var m := ServerMessage(session, ca, node);
            && |m| == 34 + |ca| + |node| && m[..18] == Text("lcm-pair-v1/server")
            && m[18..34] == session && m[34..34 + |ca|] == ca && m[34 + |ca|..] == node
  {
    var m := ServerMessage(session, ca, node);
    assert |Text(LABEL_SERVER)| == 18;
    assert m[..18] == Text(LABEL_SERVER) && m[18..34] == session;
    assert m[34..34 + |ca|] == ca && m[34 + |ca|..] == node;
  }

  /** No string is both a client message and a server message, whatever the parts. */
  lemma LabelsSeparate(session: Bytes, hash: Bytes, csr: Bytes, session': Bytes, ca: Bytes, node: Bytes)
    ensures ClientMessage(session, hash, csr) != ServerMessage(session', ca, node)
  {
    assert LABEL_CLIENT[12] == 'c' && LABEL_SERVER[12] == 's';
    assert ClientMessage(session, hash, csr)[12] == Lit('c' as int as Byte);
    assert ServerMessage(session', ca, node)[12] == Lit('s' as int as Byte);
  }

  /** For whole certificates the session may have any length: they are read off the right end. */
  lemma ServerMessageOfCertificates(session: Bytes, ca: Certificate, node: Certificate,
                                    session': Bytes, ca': Certificate, node': Certificate)
    requires ServerMessage(session, Der.Raw(ca), Der.Raw(node)) == ServerMessage(session', Der.Raw(ca'), Der.Raw(node'))
    ensures session == session' && ca == ca' && node == node'
  {
    var front := Text(LABEL_SERVER);
    Der.EndsOneWay(front + session + Der.Raw(ca), node, front + session' + Der.Raw(ca'), node');
    Der.EndsOneWay(front + session, ca, front + session', ca');
    CutAt(front, session, front, session');
  }

  /** Likewise for a whole request and the hash of a certificate. */
  lemma ClientMessageOfRequest(session: Bytes, server: Certificate, req: CertRequest,
                               session': Bytes, server': Certificate, req': CertRequest)
    requires ClientMessage(session, CertHash(server), Der.RawRequest(req))
          == ClientMessage(session', CertHash(server'), Der.RawRequest(req'))
    ensures session == session' && server == server' && req == req'
  {
    var front := Text(LABEL_CLIENT);
    Der.RequestEndsOneWay(front + session + CertHash(server), req, front + session' + CertHash(server'), req');
    CutAt(front + session, CertHash(server), front + session', CertHash(server'));
    Sha256Injective(Der.Raw(server), Der.Raw(server'));
    Der.RawInjective(server, server');
    CutAt(front, session, front, session');
  }
}
