/** nir/execution_receipt.py: the authority quorum behind a finalized assignment. */
module AuthorityQuorum {
  import opened Ordering
  import opened Results
  import opened FiniteSets

  const MAX_FINALITY_AUTHORITIES := 256

  datatype Attestation = Attestation(authority: Text, signature: Text)

  /** The foreign parts: ML-DSA verification of a payload, the address of a public key (None if
      the key is malformed), and the form of an attestation. */
  datatype Keys<!P> = Keys(verify: (P, Text, Text) -> bool, addressOf: Text -> Option<Text>, wellFormed: Attestation -> bool)

  /** More than two thirds of n. */
  function Quorum(n: nat): nat {
    2 * n / 3 + 1
  }

  predicate KnownAuthorities<P>(keys: Keys<P>, trusted: map<Text, Text>) {
    && 1 <= |trusted| <= MAX_FINALITY_AUTHORITIES
    && forall id | id in trusted :: keys.addressOf(trusted[id]) == Some(id)
  }

  predicate Genuine<P>(keys: Keys<P>, trusted: map<Text, Text>, payload: P, a: Attestation) {
    && keys.wellFormed(a) && a.authority in trusted
    && keys.addressOf(trusted[a.authority]) == Some(a.authority)
    && keys.verify(payload, a.signature, trusted[a.authority])
  }

  ghost predicate OnePerAuthority(attestations: seq<Attestation>) {
    forall i, j | 0 <= i < j < |attestations| :: attestations[i].authority != attestations[j].authority
  }

  /** The payload carries a quorum: genuine attestations of that many different authorities. */
  ghost predicate HasQuorum<P>(keys: Keys<P>, trusted: map<Text, Text>, payload: P, attestations: seq<Attestation>) {
    && (forall i | 0 <= i < |attestations| :: Genuine(keys, trusted, payload, attestations[i]))
    && OnePerAuthority(attestations)
    && |attestations| >= Quorum(|trusted|)
  }

  ghost function Signers(attestations: seq<Attestation>): set<Text> {
    set a | a in attestations :: a.authority
  }

  lemma {:induction false} SignersCount(attestations: seq<Attestation>)
    requires OnePerAuthority(attestations)
    ensures |Signers(attestations)| == |attestations|
  {
    if attestations == [] {
      assert Signers(attestations) == {};
    } else {
      var init, last := attestations[..|attestations| - 1], attestations[|attestations| - 1];
      SignersCount(init);
      assert attestations == init + [last];
      assert Signers(attestations) == Signers(init) + {last.authority};
      assert last.authority !in Signers(init);
    }
  }

  method CheckAttestations<P>(keys: Keys<P>, trusted: map<Text, Text>, payload: P, attestations: seq<Attestation>) returns (ok: bool)
    ensures ok <==> |attestations| <= |trusted| && HasQuorum(keys, trusted, payload, attestations)
  {
    if |attestations| > |trusted| {
      return false;
    }
    var quorum := 2 * |trusted| / 3 + 1;
    var seen: set<Text> := {};
    for i := 0 to |attestations|
      invariant forall j | 0 <= j < i :: Genuine(keys, trusted, payload, attestations[j])
      invariant OnePerAuthority(attestations[..i])
      invariant seen == Signers(attestations[..i])
    {
      var a := attestations[i];
      assert attestations[..i + 1] == attestations[..i] + [a];
      if a.authority in seen {
        var b :| b in attestations[..i] && b.authority == a.authority;
        var j :| 0 <= j < i && attestations[j] == b;
        return false;
      }
      if !Genuine(keys, trusted, payload, a) {
        return false;
      }
      SignersNext(attestations, i);
      seen := seen + {a.authority};
    }
    assert attestations[..|attestations|] == attestations;
    SignersCount(attestations);
    return |seen| >= quorum;
  }

  lemma SignersNext(attestations: seq<Attestation>, i: nat)
    requires i < |attestations| && OnePerAuthority(attestations[..i]) && attestations[i].authority !in Signers(attestations[..i])
    ensures OnePerAuthority(attestations[..i + 1])
    ensures Signers(attestations[..i + 1]) == Signers(attestations[..i]) + {attestations[i].authority}
  {
    assert attestations[..i + 1] == attestations[..i] + [attestations[i]];
    forall j | 0 <= j < i ensures attestations[j].authority != attestations[i].authority {
      assert attestations[j] in attestations[..i];
    }
    assert attestations[i] in attestations[..i + 1];
  }

  /** A quorum within the limit on attestations is possible at all: it never asks for more than n. */
  lemma QuorumFits(n: nat)
    requires n > 0
    ensures Quorum(n) <= n
    ensures 3 * (Quorum(n) - 1) <= 2 * n < 3 * Quorum(n)
  {
  }

  /** Any two payloads accepted against the same n authorities were both signed by at least
      floor((n - 1) / 3) + 1 of them: two conflicting ones need more double signers than a
      tolerated minority of a third. */
  lemma TwoQuorumsOverlap<P>(keys: Keys<P>, trusted: map<Text, Text>, p: P, a: seq<Attestation>, q: P, b: seq<Attestation>)
    requires |trusted| > 0 && HasQuorum(keys, trusted, p, a) && HasQuorum(keys, trusted, q, b)
    ensures |Signers(a) * Signers(b)| >= (|trusted| - 1) / 3 + 1
    ensures forall id | id in Signers(a) * Signers(b) :: SignedBoth(keys, trusted, p, a, q, b, id)
  {
    SignersCount(a);
    SignersCount(b);
    SignersAreTrusted(keys, trusted, p, a);
    SignersAreTrusted(keys, trusted, q, b);
    Overlap(Signers(a), Signers(b), trusted.Keys);
    assert |trusted.Keys| == |trusted|;
    forall id | id in Signers(a) * Signers(b) ensures SignedBoth(keys, trusted, p, a, q, b, id) {
      Signed(keys, trusted, p, a, id);
      Signed(keys, trusted, q, b, id);
    }
  }

  ghost predicate SignedIn<P>(keys: Keys<P>, trusted: map<Text, Text>, p: P, a: seq<Attestation>, id: Text) {
    id in trusted && exists i :: 0 <= i < |a| && a[i].authority == id && keys.verify(p, a[i].signature, trusted[id])
  }

  ghost predicate SignedBoth<P>(keys: Keys<P>, trusted: map<Text, Text>, p: P, a: seq<Attestation>, q: P, b: seq<Attestation>, id: Text) {
    SignedIn(keys, trusted, p, a, id) && SignedIn(keys, trusted, q, b, id)
  }

  lemma Signed<P>(keys: Keys<P>, trusted: map<Text, Text>, p: P, a: seq<Attestation>, id: Text)
    requires HasQuorum(keys, trusted, p, a) && id in Signers(a)
    ensures SignedIn(keys, trusted, p, a, id)
  {
    var x :| x in a && x.authority == id;
    var i :| 0 <= i < |a| && a[i] == x;
    assert Genuine(keys, trusted, p, a[i]);
  }

  lemma SignersAreTrusted<P>(keys: Keys<P>, trusted: map<Text, Text>, p: P, a: seq<Attestation>)
    requires HasQuorum(keys, trusted, p, a)
    ensures Signers(a) <= trusted.Keys
  {
    forall id | id in Signers(a) ensures id in trusted {
      Signed(keys, trusted, p, a, id);
    }
  }
}
