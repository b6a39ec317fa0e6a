// The secure chunk store object with its access control and audit log,
// proved against StoreSpec (core/security.py).
module SecureStore {
  import opened Types
  import opened StoreSpec

  class AccessControl {
    var policy: Policy

    constructor (policy: Policy)
      ensures this.policy == policy
    {
      this.policy := policy;
    }

    method Grant(role: string, key: Option<ChunkKey>)
      modifies this
      ensures policy == GrantTo(old(policy), role, key)
    {
      if key.None? {
        policy := policy[role := All];
        return;
      }
      if role in policy && policy[role].All? {
        return;
      }
      var existing := if role in policy then policy[role].keys else {};
      assert {} + {key.value} == {key.value};
      policy := policy[role := Only(existing + {key.value})];
    }

    method Revoke(role: string)
      modifies this
      ensures policy == StoreSpec.Revoke(old(policy), role)
    {
      policy := policy - {role};
    }

    method IsAllowed(role: string, key: ChunkKey) returns (allowed: bool)
      ensures allowed == Allowed(policy, role, key)
    {
      if role !in policy {
        return false;
      }
      if policy[role].All? {
        return true;
      }
      return key in policy[role].keys;
    }
  }

  class AuditLogger {
    var entries: seq<AuditEntry>

    constructor ()
      ensures entries == []
    {
      entries := [];
    }

    method Log(role: string, key: ChunkKey, action: string, granted: bool)
      modifies this
      ensures entries == old(entries) + [AuditEntry(role, key, action, granted)]
    {
      entries := entries + [AuditEntry(role, key, action, granted)];
    }
  }

  class SecureChunkStore {
    const cipher: Cipher
    const access: AccessControl
    const audit: AuditLogger
    var blobs: map<ChunkKey, Bytes>
    ghost var decrypts: seq<ChunkKey>

    ghost function State(): Store
      reads this, access, audit
    {
      Store(access.policy, audit.entries, blobs, decrypts)
    }

    /** `audit or AuditLogger()`: a logger has a length, so a supplied one counts
        as missing while it is empty. */
    constructor (cipher: Cipher, access: AccessControl, audit: Option<AuditLogger>)
      ensures this.cipher == cipher && this.access == access
      ensures audit.Some? && audit.value.entries != [] ==> this.audit == audit.value
      ensures audit.None? || audit.value.entries == [] ==> fresh(this.audit) && this.audit.entries == []
      ensures blobs == map[] && decrypts == []
    {
      var logger;
      if audit.Some? && audit.value.entries != [] {
        logger := audit.value;
      } else {
        logger := new AuditLogger();
      }
      this.cipher := cipher;
      this.access := access;
      this.audit := logger;
      blobs := map[];
      decrypts := [];
    }

    /** The nonce the cipher draws is a parameter. */
    method StoreRecords(key: ChunkKey, records: seq<Record>, nonce: nat)
      modifies this`blobs
      ensures blobs == old(blobs)[key := Seal(cipher, nonce, records)]
    {
      blobs := blobs[key := cipher.encrypt(nonce, cipher.serialize(records))];
    }

    method Fetch(role: string, key: ChunkKey) returns (r: Fetched)
      modifies audit, this`decrypts
      ensures (State(), r) == StoreSpec.Fetch(cipher, old(State()), role, key)
    {
      var granted := access.IsAllowed(role, key);
      audit.Log(role, key, "fetch", granted);
      if !granted {
        return Records([]);
      }
      if key !in blobs {
        return Records([]);
      }
      decrypts := decrypts + [key];
      var pt := cipher.decrypt(blobs[key]);
      if pt.None? {
        return InvalidTag;
      }
      return Records(cipher.deserialize(pt.value));
    }
  }

  /** The log of a store made for `audit`, after any fetches: the supplied logger
      gets every entry exactly when it was not empty, or there was none to get. */
  method SuppliedLog(cipher: Cipher, access: AccessControl, audit: AuditLogger, asks: seq<(string, ChunkKey)>)
    returns (store: SecureChunkStore)
    modifies audit
    ensures store.audit.entries == old(audit.entries) + Attempts(access.policy, asks)
    ensures audit.entries ==
            old(audit.entries) + if old(audit.entries) != [] then Attempts(access.policy, asks) else []
    ensures audit.entries == old(audit.entries) + Attempts(access.policy, asks) <==>
            old(audit.entries) != [] || asks == []
  {
    store := new SecureChunkStore(cipher, access, Some(audit));
    for i := 0 to |asks|
      invariant store.audit == audit <==> old(audit.entries) != []
      invariant store.audit != audit ==> fresh(store.audit) && audit.entries == []
      invariant store.audit.entries == old(audit.entries) + Attempts(access.policy, asks[..i])
      invariant access.policy == old(access.policy) && store.access == access
    {
      assert asks[..i + 1][..i] == asks[..i];
      var _ := store.Fetch(asks[i].0, asks[i].1);
    }
    assert asks[..|asks|] == asks;
  }

  /** For example one fetch through a store made with a new logger: the store's own
      log has the entry, the logger stays empty. */
  method NewLoggerMisses(cipher: Cipher, access: AccessControl, role: string, key: ChunkKey)
    returns (audit: AuditLogger, store: SecureChunkStore)
    ensures fresh(audit) && audit.entries == []
    ensures store.audit.entries == [AuditEntry(role, key, "fetch", Allowed(access.policy, role, key))]
  {
    audit := new AuditLogger();
    store := SuppliedLog(cipher, access, audit, [(role, key)]);
    assert [(role, key)][..0] == [];
    assert Attempts(access.policy, [(role, key)]) ==
           [AuditEntry(role, key, "fetch", Allowed(access.policy, role, key))];
  }

  /** One entry per attempt, granted or denied. */
  function Attempts(policy: Policy, asks: seq<(string, ChunkKey)>): (r: seq<AuditEntry>)
    ensures |r| == |asks|
  {
    if asks == [] then []
    else
      var (role, key) := asks[|asks| - 1];
      Attempts(policy, asks[..|asks| - 1]) + [AuditEntry(role, key, "fetch", Allowed(policy, role, key))]
  }
}
