/** The images agent's process-wide key/value store. A Python `dict` keeps
    its keys in insertion order, so the store is a map together with the
    sequence of its keys in the order they were first set. */
module Cache {
  import opened Wrappers

  predicate Distinct(keys: seq<string>) {
    forall i, j :: 0 <= i < j < |keys| ==> keys[i] != keys[j]
  }

  /** `keys` with `key` taken out and the others left in order. */
  function Without(keys: seq<string>, key: string): (r: seq<string>)
    ensures forall k :: k in r <==> k in keys && k != key
    ensures |r| <= |keys|
    decreases |keys|
  {
    if keys == [] then []
    else if keys[0] == key then Without(keys[1..], key)
    else [keys[0]] + Without(keys[1..], key)
  }

  /** Removing a key keeps the remaining keys distinct. */
  lemma {:induction false} WithoutDistinct(keys: seq<string>, key: string)
    requires Distinct(keys)
    ensures Distinct(Without(keys, key))
    decreases |keys|
  {
    if keys != [] {
      WithoutDistinct(keys[1..], key);
      assert keys[0] !in keys[1..] by {
        forall i | 0 <= i < |keys[1..]| ensures keys[1..][i] != keys[0] {
          assert keys[1..][i] == keys[i + 1];
        }
      }
    }
  }

  /** Removing a key that is absent changes nothing. */
  lemma {:induction false} WithoutAbsent(keys: seq<string>, key: string)
    requires key !in keys
    ensures Without(keys, key) == keys
    decreases |keys|
  {
    if keys != [] {
      WithoutAbsent(keys[1..], key);
      assert keys == [keys[0]] + keys[1..];
    }
  }

  class InMemoryCache<V> {
    /** The keys of `entries`, in insertion order. */
    var order: seq<string>
    var entries: map<string, V>

    ghost predicate Valid()
      reads this
    {
      Distinct(order) && forall k :: k in entries <==> k in order
    }

    constructor ()
      ensures Valid() && entries == map[] && order == []
    {
      order := [];
      entries := map[];
    }

    /** `get`: the stored value, or None for a key never set or deleted. */
    method Get(key: string) returns (r: Option<V>)
      requires Valid()
      ensures key in entries ==> r == Some(entries[key])
      ensures key !in entries ==> r == None
    {
      if key in entries {
        r := Some(entries[key]);
      } else {
        r := None;
      }
    }

    /** `set`: stores or overwrites the entry for `key`; every other entry is
        unchanged, and a new key goes to the end of the key order. */
    method Set(key: string, value: V)
      requires Valid()
      modifies this
      ensures Valid()
      ensures entries == old(entries)[key := value]
      ensures order == if key in old(entries) then old(order) else old(order) + [key]
    {
      if key !in entries {
        order := order + [key];
      }
      entries := entries[key := value];
    }

    /** `delete`: True and the entry removed exactly when `key` was present;
        otherwise False and nothing changes. */
    method Delete(key: string) returns (existed: bool)
      requires Valid()
      modifies this
      ensures Valid()
      ensures existed == (key in old(entries))
      ensures entries == old(entries) - {key}
      ensures order == Without(old(order), key)
      ensures !existed ==> order == old(order) && entries == old(entries)
    {
      if key in entries {
        WithoutDistinct(order, key);
        entries := entries - {key};
        order := Without(order, key);
        existed := true;
      } else {
        WithoutAbsent(order, key);
        existed := false;
      }
    }

    /** `clear`: afterwards no key is stored. */
    method Clear()
      requires Valid()
      modifies this
      ensures Valid()
      ensures entries == map[] && order == []
    {
      entries := map[];
      order := [];
    }

    /** `keys`: every stored key exactly once, in insertion order. */
    method Keys() returns (keys: seq<string>)
      requires Valid()
      ensures keys == order
      ensures Distinct(keys)
      ensures forall k :: k in keys <==> k in entries
    {
      keys := order;
    }

    /** `__contains__`. */
    method Contains(key: string) returns (present: bool)
      requires Valid()
      ensures present <==> key in entries
    {
      present := key in entries;
    }
  }

  /** The Python class object `InMemoryCache`: it holds the one instance
      (`_instance`) that every construction returns. */
  class InMemoryCacheClass<V> {
    var instance: InMemoryCache?<V>

    ghost predicate Valid()
      reads this, instance
    {
      instance != null ==> instance.Valid()
    }

    /** The class before any construction. */
    constructor ()
      ensures Valid() && instance == null
    {
      instance := null;
    }

    /** `InMemoryCache()` (`__new__`): the first call makes the instance with
        an empty store; every later call returns that same instance and
        leaves its store as it is. */
    method New() returns (cache: InMemoryCache<V>)
      requires Valid()
      modifies this
      ensures Valid() && instance == cache && cache.Valid()
      ensures old(instance) == null ==> fresh(cache) && cache.entries == map[] && cache.order == []
      ensures old(instance) != null ==> cache == old(instance) && unchanged(cache)
    {
      if instance == null {
        instance := new InMemoryCache();
      }
      cache := instance;
    }
  }

  /** Two constructions yield one shared store: what is set through the first
      handle is read back through the second. */
  method SharedInstance<V>(cls: InMemoryCacheClass<V>, key: string, value: V) returns (r: Option<V>)
    requires cls.Valid()
    modifies cls, cls.instance
    ensures r == Some(value)
  {
    var first := cls.New();
    first.Set(key, value);
    var second := cls.New();
    assert second == first;
    r := second.Get(key);
  }
}
