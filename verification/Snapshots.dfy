/** The reference-counted policy snapshot store. */
module Snapshots {
  import opened Records

  /** Counts per snapshot hash and the hash of the policy in force. */
  datatype Store = Store(refcounts: map<string, nat>, current: Option<string>)

  function Refs(s: Store, hash: string): nat {
    if hash in s.refcounts then s.refcounts[hash] else 0
  }

  function Add(s: Store, hash: string): Store {
    Store(if hash in s.refcounts then s.refcounts else s.refcounts[hash := 0], Some(hash))
  }

  /** `None` where the store throws: an unknown hash. */
  function Retain(s: Store, hash: string): Option<Store> {
    if hash in s.refcounts then Some(s.(refcounts := s.refcounts[hash := s.refcounts[hash] + 1])) else None
  }

  /** `None` where the store throws: a release that nothing retained. */
  function Release(s: Store, hash: string): Option<Store> {
    if Refs(s, hash) == 0 then None else Some(s.(refcounts := s.refcounts[hash := s.refcounts[hash] - 1]))
  }

  function Gc(s: Store): Store {
    s.(refcounts := map h | h in s.refcounts && (s.refcounts[h] != 0 || s.current == Some(h)) :: s.refcounts[h])
  }

  class PolicySnapshotStore {
    var snapshots: map<string, string>
    var refcounts: map<string, nat>
    var currentHash: Option<string>

    constructor ()
      ensures Valid() && Value() == Store(map[], None)
    {
      snapshots, refcounts, currentHash := map[], map[], None;
    }

    /** Both maps always cover the same hashes. */
    ghost predicate Valid()
      reads this
    {
      snapshots.Keys == refcounts.Keys
    }

    ghost function Value(): Store
      reads this
    {
      Store(refcounts, currentHash)
    }

    method AddPolicy(hash: string, yaml: string)
      requires Valid()
      modifies this
      ensures Valid() && Value() == Add(old(Value()), hash)
      ensures snapshots == if hash in old(snapshots) then old(snapshots) else old(snapshots)[hash := yaml]
    {
      if hash !in snapshots {
        snapshots := snapshots[hash := yaml];
        refcounts := refcounts[hash := 0];
      }
      currentHash := Some(hash);
    }

    method RetainHash(hash: string) returns (ok: bool)
      requires Valid()
      modifies this
      ensures Valid() && ok == Retain(old(Value()), hash).Some?
      ensures Value() == Retain(old(Value()), hash).GetOr(old(Value()))
    {
      ok := hash in refcounts;
      if ok {
        refcounts := refcounts[hash := refcounts[hash] + 1];
      }
    }

    method ReleaseHash(hash: string) returns (ok: bool)
      requires Valid()
      modifies this
      ensures Valid() && ok == Release(old(Value()), hash).Some?
      ensures Value() == Release(old(Value()), hash).GetOr(old(Value()))
    {
      ok := hash in refcounts && refcounts[hash] != 0;
      if ok {
        refcounts := refcounts[hash := refcounts[hash] - 1];
      }
    }

    method Collect() returns (dropped: set<string>)
      requires Valid()
      modifies this
      ensures Valid() && Value() == Gc(old(Value())) && dropped == old(refcounts.Keys) - refcounts.Keys
    {
      dropped := {};
      var rest := refcounts.Keys;
      while rest != {}
        invariant rest <= old(refcounts.Keys) && currentHash == old(currentHash) && Valid()
        invariant dropped == old(refcounts.Keys) - refcounts.Keys
        invariant forall h :: h in refcounts <==>
            h in old(refcounts) && (h in rest || old(refcounts)[h] != 0 || currentHash == Some(h))
        invariant forall h :: h in refcounts ==> refcounts[h] == old(refcounts)[h]
        decreases rest
      {
        var hash :| hash in rest;
        rest := rest - {hash};
        if refcounts[hash] == 0 && currentHash != Some(hash) {
          snapshots := snapshots - {hash};
          refcounts := refcounts - {hash};
          dropped := dropped + {hash};
        }
      }
    }
  }
}
