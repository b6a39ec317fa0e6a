// Layer 4 as functions: access control, audit and encrypted blobs. The cipher
// and the serializer are abstract.
module StoreSpec {
  import opened Types

  type Bytes = seq<nat>

  /** `encrypt` takes the nonce it draws; `decrypt` is None where it raises InvalidTag. */
  datatype Cipher = Cipher(
    encrypt: (nat, Bytes) -> Bytes,
    decrypt: Bytes -> Option<Bytes>,
    serialize: seq<Record> -> Bytes,
    deserialize: Bytes -> seq<Record>)

  ghost predicate RoundTrips(c: Cipher) {
    && (forall nonce, pt :: c.decrypt(c.encrypt(nonce, pt)) == Some(pt))
    && (forall rs :: c.deserialize(c.serialize(rs)) == rs)
  }

  datatype Grant = All | Only(keys: set<ChunkKey>)

  type Policy = map<string, Grant>

  datatype AuditEntry = AuditEntry(role: string, key: ChunkKey, action: string, granted: bool)

  /** `decrypts` records the key of every decrypt call. */
  datatype Store = Store(policy: Policy, entries: seq<AuditEntry>,
                         blobs: map<ChunkKey, Bytes>, decrypts: seq<ChunkKey>)

  datatype Fetched = Records(records: seq<Record>) | InvalidTag

  predicate Allowed(p: Policy, role: string, key: ChunkKey) {
    role in p && (p[role].All? || key in p[role].keys)
  }

  /** No key grants every chunk; a wildcard absorbs further keys. */
  function GrantTo(p: Policy, role: string, key: Option<ChunkKey>): Policy {
    match key
    case None => p[role := All]
    case Some(k) =>
      if role !in p then p[role := Only({k})]
      else if p[role].All? then p
      else p[role := Only(p[role].keys + {k})]
  }

  function Revoke(p: Policy, role: string): Policy {
    p - {role}
  }

  /** What `decrypt` then `deserialize` makes of a blob. */
  function Open(c: Cipher, blob: Bytes): Fetched {
    match c.decrypt(blob)
    case None => InvalidTag
    case Some(pt) => Records(c.deserialize(pt))
  }

  function Seal(c: Cipher, nonce: nat, rs: seq<Record>): Bytes {
    c.encrypt(nonce, c.serialize(rs))
  }

  lemma OpenSealed(c: Cipher, nonce: nat, rs: seq<Record>)
    requires RoundTrips(c)
    ensures Open(c, Seal(c, nonce, rs)) == Records(rs)
  {
  }

  /** Audit, then check, then decrypt. */
  function Fetch(c: Cipher, s: Store, role: string, key: ChunkKey): (Store, Fetched) {
    var granted := Allowed(s.policy, role, key);
    var s1 := s.(entries := s.entries + [AuditEntry(role, key, "fetch", granted)]);
    if !granted || key !in s.blobs then (s1, Records([]))
    else (s1.(decrypts := s.decrypts + [key]), Open(c, s.blobs[key]))
  }

  /** A grant allows what it names and nothing else changes. */
  lemma GrantMeans(p: Policy, role: string, key: Option<ChunkKey>, r: string, k: ChunkKey)
    ensures Allowed(GrantTo(p, role, key), r, k) <==>
            Allowed(p, r, k) || (r == role && (key.None? || key.value == k))
  {
  }

  lemma RevokeMeans(p: Policy, role: string, r: string, k: ChunkKey)
    ensures Allowed(Revoke(p, role), r, k) <==> Allowed(p, r, k) && r != role
  {
  }
}
