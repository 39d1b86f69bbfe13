/**
 * The string-to-string map wrapper used for headers, cookies and query
 * parameters (src/core/utils/keyval.rs). The Rust HashMap is modelled by a
 * `map` field that the mutating operations reassign; its iteration order is
 * not modelled.
 */
module KeyValStore {
  import opened Wrappers

  class KeyVal {
    var entries: map<string, string>

    /** KeyVal::new: an empty map. */
    constructor ()
      ensures entries == map[]
    {
      entries := map[];
    }

    /** HashMap::insert: stores the value and returns the one it replaced. */
    method Add(key: string, value: string) returns (previous: Option<string>)
      modifies this
      ensures entries == old(entries)[key := value]
      ensures Get(key) == Some(value)
      ensures previous == if key in old(entries) then Some(old(entries)[key]) else None
      ensures forall k :: k != key ==> Get(k) == old(Get(k))
      ensures Len() == old(Len()) + (if key in old(entries) then 0 else 1)
    {
      previous := Get(key);
      entries := entries[key := value];
    }

    /** HashMap::remove: drops the key and returns the value it had. */
    method Del(key: string) returns (removed: Option<string>)
      modifies this
      ensures entries == old(entries) - {key}
      ensures !Exists(key)
      ensures removed == if key in old(entries) then Some(old(entries)[key]) else None
      ensures forall k :: k != key ==> Get(k) == old(Get(k))
      ensures Len() == old(Len()) - (if key in old(entries) then 1 else 0)
    {
      removed := Get(key);
      entries := entries - {key};
    }

    /** HashMap::contains_key. */
    predicate Exists(key: string)
      reads this
    {
      key in entries
    }

    /** HashMap::get. */
    function Get(key: string): (r: Option<string>)
      reads this
      ensures r.Some? <==> Exists(key)
      ensures r.Some? ==> r.value == entries[key]
    {
      if key in entries then Some(entries[key]) else None
    }

    /** HashMap::is_empty. */
    predicate IsEmpty()
      reads this
    {
      entries == map[]
    }

    /** HashMap::len. */
    function Len(): (n: nat)
      reads this
      ensures n == 0 <==> IsEmpty()
    {
      |entries|
    }

    /** HashMap::clear. */
    method Clear()
      modifies this
      ensures entries == map[]
      ensures IsEmpty() && Len() == 0
      ensures forall k :: !Exists(k)
    {
      entries := map[];
    }
  }
}

/**
 * The older copy of the same wrapper (src/keyval.rs), with the same
 * operations and no Default implementation.
 */
module LegacyKeyValStore {
  import opened Wrappers

  class KeyVal {
    var entries: map<string, string>

    constructor ()
      ensures entries == map[]
    {
      entries := map[];
    }

    method Add(key: string, value: string) returns (previous: Option<string>)
      modifies this
      ensures entries == old(entries)[key := value]
      ensures Get(key) == Some(value)
      ensures previous == if key in old(entries) then Some(old(entries)[key]) else None
      ensures forall k :: k != key ==> Get(k) == old(Get(k))
      ensures Len() == old(Len()) + (if key in old(entries) then 0 else 1)
    {
      previous := Get(key);
      entries := entries[key := value];
    }

    method Del(key: string) returns (removed: Option<string>)
      modifies this
      ensures entries == old(entries) - {key}
      ensures !Exists(key)
      ensures removed == if key in old(entries) then Some(old(entries)[key]) else None
      ensures forall k :: k != key ==> Get(k) == old(Get(k))
    {
      removed := Get(key);
      entries := entries - {key};
    }

    predicate Exists(key: string)
      reads this
    {
      key in entries
    }

    function Get(key: string): (r: Option<string>)
      reads this
      ensures r.Some? <==> Exists(key)
      ensures r.Some? ==> r.value == entries[key]
    {
      if key in entries then Some(entries[key]) else None
    }

    predicate IsEmpty()
      reads this
    {
      entries == map[]
    }

    function Len(): (n: nat)
      reads this
      ensures n == 0 <==> IsEmpty()
    {
      |entries|
    }

    method Clear()
      modifies this
      ensures entries == map[]
      ensures IsEmpty() && Len() == 0
    {
      entries := map[];
    }
  }
}
