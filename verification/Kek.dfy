/** kek.js: the embedding keys that wrap stored keys. A JWE is a free constructor that decrypts only
    under the KEK it was made with. */
module Kek {
  import opened Text
  import opened Acl

  type Kid = string
  type KekId = string

  /** A secret JWK. `material` stands for the key bytes, which the two halves of a pair share. */
  datatype Jwk = Jwk(kid: Kid, alg: string, material: nat)

  datatype PublicJwk = PublicJwk(kid: Kid, alg: string, material: nat)

  function PublicHalf(k: Jwk): PublicJwk { PublicJwk(k.kid, k.alg, k.material) }

  datatype Claims = Claims(kid: Option<Kid>, iat: int, nbf: Option<int>, exp: Option<int>, key: Jwk)

  /** What a JWE decrypts to: a key embedding or any other JSON. */
  datatype Payload = Embedding(claims: Claims) | OtherJson

  datatype Jwe = Jwe(kekId: KekId, nonce: nat, payload: Payload)

  datatype Kek = Kek(kid: KekId, wrapAlg: string)

  datatype Manager = Manager(active: Kek, byId: map<KekId, Kek>)

  datatype ManagerError = DuplicateKek(kid: KekId)

  /** The map indexes exactly the listed KEKs, whose ids are distinct. */
  ghost predicate Indexed(byId: map<KekId, Kek>, ks: seq<Kek>) {
    && NoDup(Ids(ks))
    && (forall k :: k in byId <==> k in Ids(ks))
    && (forall i :: 0 <= i < |ks| ==> ks[i].kid in byId && byId[ks[i].kid] == ks[i])
  }

  /** The first KEK whose id repeats an earlier one. */
  ghost predicate FirstDuplicate(ks: seq<Kek>, j: nat) {
    j < |ks| && NoDup(Ids(ks[..j])) && ks[j].kid in Ids(ks[..j])
  }

  /** The constructor: the active KEK and the retired ones must have distinct ids. */
  method BuildManager(active: Kek, retired: seq<Kek>) returns (r: Result<Manager, ManagerError>)
    ensures r.Ok? <==> NoDup(Ids([active] + retired))
    ensures r.Ok? ==> r.value.active == active && Indexed(r.value.byId, [active] + retired) && ManagerOk(r.value)
    ensures r.Err? ==>
              exists j: nat :: FirstDuplicate([active] + retired, j) && ([active] + retired)[j].kid == r.error.kid
  {
    var byId := map[active.kid := active];
    ghost var all := [active] + retired;
    IndexStep(map[], [], active);
    assert [] + [active] == all[..1];
    for i := 0 to |retired|
      invariant Indexed(byId, all[..i + 1])
    {
      var k := retired[i];
      assert all[..i + 2] == all[..i + 1] + [k] && all == all[..i + 2] + all[i + 2..];
      IdsStep(all[..i + 1], k);
      if k.kid in byId {
        NoDupPrefix(all[..i + 2], all[i + 2..]);
        assert FirstDuplicate(all, i + 1);
        return Err(DuplicateKek(k.kid));
      }
      IndexStep(byId, all[..i + 1], k);
      byId := byId[k.kid := k];
    }
    assert all[..|retired| + 1] == all;
    IndexedOk(byId, all);
    return Ok(Manager(active, byId));
  }

  lemma IndexStep(byId: map<KekId, Kek>, ks: seq<Kek>, k: Kek)
    requires Indexed(byId, ks) && k.kid !in byId
    ensures Indexed(byId[k.kid := k], ks + [k])
  {
    IdsStep(ks, k);
    var all := ks + [k];
    forall i | 0 <= i < |ks| ensures all[i] == ks[i] && ks[i].kid != k.kid { assert ks[i].kid in byId; }
  }

  lemma IndexedOk(byId: map<KekId, Kek>, ks: seq<Kek>)
    requires Indexed(byId, ks) && ks != []
    ensures ManagerOk(Manager(ks[0], byId))
  {
    forall k | k in byId ensures byId[k].kid == k {
      var i :| 0 <= i < |ks| && Ids(ks)[i] == k;
      assert byId[ks[i].kid] == ks[i];
    }
  }

  function Ids(ks: seq<Kek>): (ids: seq<KekId>)
    ensures |ids| == |ks| && forall i :: 0 <= i < |ks| ==> ids[i] == ks[i].kid
  {
    seq(|ks|, i requires 0 <= i < |ks| => ks[i].kid)
  }

  lemma IdsStep(a: seq<Kek>, k: Kek)
    ensures Ids(a + [k]) == Ids(a) + [k.kid]
    ensures NoDup(Ids(a + [k])) <==> NoDup(Ids(a)) && k.kid !in Ids(a)
  {
    var ids := Ids(a + [k]);
    assert forall i :: 0 <= i < |a| ==> ids[i] == Ids(a)[i];
    if k.kid in Ids(a) {
      var i :| 0 <= i < |a| && Ids(a)[i] == k.kid;
      assert ids[i] == ids[|a|];
    }
  }

  lemma NoDupPrefix(a: seq<Kek>, b: seq<Kek>)
    requires !NoDup(Ids(a))
    ensures !NoDup(Ids(a + b))
  {
    var i, j :| 0 <= i < j < |a| && Ids(a)[i] == Ids(a)[j];
    assert Ids(a + b)[i] == Ids(a + b)[j];
  }

  ghost predicate ManagerOk(m: Manager) {
    m.active.kid in m.byId && m.byId[m.active.kid] == m.active && forall k :: k in m.byId ==> m.byId[k].kid == k
  }

  datatype Meta = Meta(kid: Kid, iat: int, nbf: Option<int>, exp: Option<int>)

  datatype Embedded = Embedded(embeddingKeyId: KekId, embeddedKey: Jwe)

  /** Wrap a secret under the active KEK; the nonce stands for the randomness of the encryption. */
  function Embed(m: Manager, secret: Jwk, meta: Meta, nonce: nat): Embedded {
    Embedded(m.active.kid,
             Jwe(m.active.kid, nonce, Embedding(Claims(Some(meta.kid), meta.iat, meta.nbf, meta.exp, secret))))
  }

  datatype ExtractError = KekUnavailable | DecryptFailed | NotAnEmbedding | KidMismatch

  function Decrypt(jwe: Jwe, kek: Kek): Option<Payload> {
    if jwe.kekId == kek.kid then Some(jwe.payload) else None
  }

  function Extract(m: Manager, embeddingKeyId: KekId, embeddedKey: Jwe, expectedKid: Kid): Result<Jwk, ExtractError> {
    if embeddingKeyId !in m.byId then Err(KekUnavailable)
    else
      match Decrypt(embeddedKey, m.byId[embeddingKeyId])
      case None => Err(DecryptFailed)
      case Some(OtherJson) => Err(NotAnEmbedding)
      case Some(Embedding(c)) =>
        if c.key.kid != expectedKid || (c.kid.Some? && c.kid.value != expectedKid) then Err(KidMismatch)
        else Ok(c.key)
  }

  /** Extraction succeeds exactly for a configured KEK id, a JWE made under that KEK, and a consistent
      embedding of the expected key; it then gives the embedded secret. */
  lemma ExtractIff(m: Manager, id: KekId, jwe: Jwe, kid: Kid, secret: Jwk)
    requires ManagerOk(m)
    ensures Extract(m, id, jwe, kid) == Ok(secret) <==>
            id in m.byId && jwe.kekId == id && jwe.payload.Embedding? && jwe.payload.claims.key == secret
            && secret.kid == kid && jwe.payload.claims.kid in {None, Some(kid)}
  {
  }

  /** Every manager that knows the wrapping KEK, active or retired, extracts what was embedded. */
  lemma EmbedRoundTrip(m: Manager, other: Manager, secret: Jwk, meta: Meta, nonce: nat)
    requires ManagerOk(other) && secret.kid == meta.kid
    ensures var e := Embed(m, secret, meta, nonce);
            Extract(other, e.embeddingKeyId, e.embeddedKey, meta.kid)
            == if m.active.kid in other.byId then Ok(secret) else Err(KekUnavailable)
  {
  }
}
