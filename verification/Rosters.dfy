/** Key-provisioner rosters: certificates by fingerprint, and one encrypted share per certificate. */
module Rosters {
  import opened Text
  import opened Sequences

  type Fingerprint = string

  const MAX_SHARES := 65_535

  datatype Cert = Cert(fingerprint: Fingerprint, encryptionKey: string)

  /** A sorted list without equal fingerprints is a map from them. */
  type CertRoster = m: map<Fingerprint, Cert> | forall f :: f in m ==> m[f].fingerprint == f witness map[]

  datatype Share = Share(id: nat, recipient: Fingerprint, ciphertext: string)

  predicate ValidShares(shares: seq<Share>) {
    && |shares| <= MAX_SHARES
    && (forall i :: 0 <= i < |shares| ==> shares[i].id == i + 1)
    && forall i, j :: 0 <= i < j < |shares| ==> shares[i].recipient != shares[j].recipient
  }

  /** Ordered by id, the ids exactly 1 to n, no recipient twice. */
  type ShareRoster = s: seq<Share> | ValidShares(s) witness []

  /** A recipient more extends a roster exactly if it is new, its id is the next, and 65535 shares are not exceeded. */
  lemma ExtendsExact(shares: ShareRoster, share: Share)
    ensures ValidShares(shares + [share]) <==>
            && |shares| < 65_535 && share.id == |shares| + 1
            && forall i :: 0 <= i < |shares| ==> shares[i].recipient != share.recipient
  {
    var longer := shares + [share];
    assert longer[|shares|] == share && forall i :: 0 <= i < |shares| ==> longer[i] == shares[i];
  }

  /** OpenPGP as seen from here: whom a message is encrypted to, and when a handle names a key. */
  datatype Pgp = Pgp(recipients: string -> Option<seq<string>>, aliases: (string, string) -> bool)

  function FindShare(shares: seq<Share>, fingerprint: Fingerprint): (found: Option<Share>)
    ensures found.Some? ==> found.value in shares && found.value.recipient == fingerprint
    ensures found.None? ==> forall i :: 0 <= i < |shares| ==> shares[i].recipient != fingerprint
  {
    if shares == [] then None
    else if shares[0].recipient == fingerprint then Some(shares[0])
    else FindShare(shares[1..], fingerprint)
  }

  predicate VerifyRecipient(pgp: Pgp, share: Share, cert: Cert) {
    && share.recipient == cert.fingerprint
    && match pgp.recipients(share.ciphertext)
       case None => false
       case Some(handles) => |handles| == 1 && pgp.aliases(cert.encryptionKey, handles[0])
  }

  /** The check the code makes: equal counts, and every certificate's share found and addressed to it. */
  predicate VerifyRecipients(pgp: Pgp, shares: ShareRoster, certs: CertRoster) {
    && |shares| == |certs|
    && forall f :: f in certs ==>
         match FindShare(shares, f)
         case None => false
         case Some(share) => VerifyRecipient(pgp, share, certs[f])
  }

  predicate Assigned(shares: ShareRoster, fingerprint: Fingerprint, id: nat) {
    match FindShare(shares, fingerprint)
    case None => false
    case Some(share) => share.id == id
  }

  datatype RosterError = Unchanged | AlreadyPresent | NotPresent

  function ReplaceCert(certs: CertRoster, current: Fingerprint, cert: Cert): (r: Result<CertRoster, RosterError>)
    ensures r.Ok? <==> current in certs && cert.fingerprint !in certs
    ensures r.Ok? ==> r.value.Keys == certs.Keys - {current} + {cert.fingerprint} && |r.value| == |certs|
    ensures r.Err? ==> (r.error.Unchanged? <==> cert.fingerprint == current)
    ensures r.Err? ==> (r.error.NotPresent? <==> cert.fingerprint != current && current !in certs)
  {
    if cert.fingerprint == current then Err(Unchanged)
    else if current !in certs then Err(NotPresent)
    else if cert.fingerprint in certs then Err(AlreadyPresent)
    else
      var rest := certs - {current};
      assert certs.Keys == rest.Keys + {current};
      assert rest[cert.fingerprint := cert].Keys == rest.Keys + {cert.fingerprint};
      Ok(rest[cert.fingerprint := cert])
  }

  function IndexOf(shares: seq<Share>, fingerprint: Fingerprint): (k: nat)
    ensures k <= |shares|
    ensures k < |shares| ==> shares[k].recipient == fingerprint
    ensures forall i :: 0 <= i < k ==> shares[i].recipient != fingerprint
  {
    if shares == [] || shares[0].recipient == fingerprint then 0 else 1 + IndexOf(shares[1..], fingerprint)
  }

  function ReplaceRecipient(shares: ShareRoster, current: Fingerprint, renewed: Fingerprint, ciphertext: string)
    : (r: Result<ShareRoster, RosterError>)
    ensures r.Ok? <==> FindShare(shares, current).Some? && FindShare(shares, renewed).None?
    ensures r.Ok? ==> |r.value| == |shares|
    ensures r.Ok? ==> forall i :: 0 <= i < |shares| ==>
              r.value[i] ==
              if shares[i].recipient == current then Share(shares[i].id, renewed, ciphertext) else shares[i]
    ensures r.Err? ==> (r.error.Unchanged? <==> renewed == current)
    ensures r.Err? ==> (r.error.NotPresent? <==> renewed != current && FindShare(shares, renewed).None?)
  {
    if renewed == current then Err(Unchanged)
    else if FindShare(shares, renewed).Some? then Err(AlreadyPresent)
    else
      var k := IndexOf(shares, current);
      if k == |shares| then Err(NotPresent)
      else Ok(shares[k := shares[k].(recipient := renewed, ciphertext := ciphertext)])
  }

  function Recipients(shares: seq<Share>): set<Fingerprint> {
    set i | 0 <= i < |shares| :: shares[i].recipient
  }

  lemma RecipientCount(shares: ShareRoster)
    ensures |Recipients(shares)| == |shares|
  {
    var key := (share: Share) => share.recipient;
    DistinctCount(key, shares);
    assert Recipients(shares) == KeysOf(key, shares);
  }

  lemma FindsAt(shares: ShareRoster, k: nat)
    requires k < |shares|
    ensures FindShare(shares, shares[k].recipient) == Some(shares[k])
  {
    var found := FindShare(shares, shares[k].recipient);
    assert found.Some?;
    var i :| 0 <= i < |shares| && shares[i] == found.value;
    assert i == k;
  }

  lemma SameSize(a: set<Fingerprint>, b: set<Fingerprint>)
    requires a <= b && |a| == |b|
    ensures a == b
  {
    if a != b {
      var x :| x in b && x !in a;
      SubsetSize(a, b - {x});
    }
  }

  /** Found exactly if some share is recorded for the fingerprint. */
  lemma FoundExact(shares: ShareRoster, f: Fingerprint)
    ensures FindShare(shares, f).Some? <==> f in Recipients(shares)
  {
    if FindShare(shares, f).Some? {
      assert FindShare(shares, f).value.recipient in Recipients(shares);
    }
  }

  /** A fingerprint is assigned the one share recorded for it. */
  lemma AssignedExact(shares: ShareRoster, f: Fingerprint, id: nat)
    ensures Assigned(shares, f, id) <==> 1 <= id <= |shares| && shares[id - 1].recipient == f
  {
    if Assigned(shares, f, id) {
      var share := FindShare(shares, f).value;
      var i :| 0 <= i < |shares| && shares[i] == share;
    }
    if 1 <= id <= |shares| && shares[id - 1].recipient == f {
      FindsAt(shares, id - 1);
    }
  }

  /** Addressed to a certificate: recorded for it, and encrypted to its encryption key and no other. */
  lemma RecipientExact(pgp: Pgp, share: Share, cert: Cert)
    ensures VerifyRecipient(pgp, share, cert) <==>
            && share.recipient == cert.fingerprint
            && exists h :: pgp.recipients(share.ciphertext) == Some([h]) && pgp.aliases(cert.encryptionKey, h)
  {
    if VerifyRecipient(pgp, share, cert) {
      var handles := pgp.recipients(share.ciphertext).value;
      assert handles == [handles[0]];
    }
  }

  /**
   Equal counts and membership do prove exact equality: the check passes exactly when the
   recipients are the certificates and each share is addressed to its own certificate.
   */
  lemma VerifyExact(pgp: Pgp, shares: ShareRoster, certs: CertRoster)
    ensures VerifyRecipients(pgp, shares, certs) <==>
            && Recipients(shares) == certs.Keys
            && forall i :: 0 <= i < |shares| ==>
                 shares[i].recipient in certs && VerifyRecipient(pgp, shares[i], certs[shares[i].recipient])
  {
    hide VerifyRecipient;
    RecipientCount(shares);
    forall i | 0 <= i < |shares| ensures FindShare(shares, shares[i].recipient) == Some(shares[i]) {
      FindsAt(shares, i);
    }
    if VerifyRecipients(pgp, shares, certs) {
      forall f | f in certs ensures f in Recipients(shares) {
        assert FindShare(shares, f).Some?;
      }
      SameSize(certs.Keys, Recipients(shares));
    }
    if Recipients(shares) == certs.Keys {
      assert |shares| == |certs|;
      forall f | f in certs ensures FindShare(shares, f).Some? {
        assert f in Recipients(shares);
      }
    }
  }
}
