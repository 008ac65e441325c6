/** The assumptions of the handshake's theorems can be met. */
module Witness {
  import opened Bytes
  import opened Control
  import opened Handshake
  import opened Agreement

  /** A stand-in for the cryptography, and for a party. */
  function ToyCrypto(): Crypto {
    Crypto(k => seq(32, i => 0 as byte), (k, p) => Some([]), (shared, salt) => salt,
           b => Some(Certificate(b)), (cert, ca) => true, (k, data) => Some([]), (cert, data, sig) => true)
  }

  function ToyParty(b: byte, withCa: bool): Party {
    Party(seq(8, i => b), [], if withCa then Some(Credentials(Certificate([]), [1], [])) else None, 0.0)
  }

  lemma ToySayable(withCa: bool)
    ensures Sayable(ToyCrypto(), ToyParty(1, withCa), ToyParty(2, withCa))
  {
    Limits();
  }

  /** The assumptions can be met, with and without certificates: a stand-in for the
      cryptography and two parties that can complete a handshake. */
  lemma CompletableExists(withCa: bool)
    ensures exists cr, c, s ::
      Sound(cr) && Completable(cr, c, s) && (c.credentials.Some? <==> withCa) && (s.credentials.Some? <==> withCa)
  {
    var cr, c, s := ToyCrypto(), ToyParty(1, withCa), ToyParty(2, withCa);
    ToySayable(withCa);
    assert Sound(cr) && Completable(cr, c, s);
  }
}
