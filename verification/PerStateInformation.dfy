/** Entries for the states of several registries (src/search/per_state_information.h). */
module PerStateInformation {
  import opened SegmentedVector

  /** The identity of a registry; its number of states is passed along with it. */
  type Registry = nat

  datatype Option<T> = None | Some(value: T)

  class PerStateInformation<Entry(0)> {
    const defaultValue: Entry
    const entryBytes: nat
    var entriesByRegistry: map<Registry, SegmentedVector<Entry>>
    var cachedRegistry: Option<Registry>
    var cachedEntries: SegmentedVector?<Entry>
    /** The registries that will notify this object when they are destroyed. */
    var subscribed: set<Registry>
    ghost var repr: set<object>

    ghost predicate Owned()
      reads this`entriesByRegistry, this`subscribed, this`repr, repr
    {
      && entryBytes > 0 && this !in repr && subscribed == entriesByRegistry.Keys
      && (forall r :: r in entriesByRegistry ==>
            entriesByRegistry[r] in repr && entriesByRegistry[r].repr <= repr && entriesByRegistry[r].Valid())
      && (forall r, s :: r in entriesByRegistry && s in entriesByRegistry && r != s ==>
            entriesByRegistry[r] != entriesByRegistry[s] && entriesByRegistry[r].repr !! entriesByRegistry[s].repr)
    }

    /** The cache, when filled, holds the vector that the registry is mapped to. */
    ghost predicate CacheExact()
      reads this`cachedRegistry, this`cachedEntries, this`entriesByRegistry
    {
      cachedRegistry.Some? ==> cachedRegistry.value in entriesByRegistry && cachedEntries == entriesByRegistry[cachedRegistry.value]
    }

    ghost predicate Valid()
      reads this, repr
    {
      Owned() && CacheExact()
    }

    /** The entry of a state: what was stored last, and the default for all others. */
    ghost function Lookup(r: Registry, id: nat): Entry
      requires Owned()
      reads this`entriesByRegistry, this`subscribed, this`repr, repr
    {
      if r in entriesByRegistry && id < |entriesByRegistry[r].contents| then entriesByRegistry[r].contents[id] else defaultValue
    }

    constructor (defaultValue: Entry, entryBytes: nat)
      requires entryBytes > 0
      ensures Valid() && forall r, id :: Lookup(r, id) == defaultValue
      ensures this.entryBytes == entryBytes && this.defaultValue == defaultValue && repr == {}
    {
      this.defaultValue, this.entryBytes := defaultValue, entryBytes;
      entriesByRegistry := map[];
      cachedRegistry, cachedEntries := None, null;
      subscribed, repr := {}, {};
    }

    /** The vector of a registry, created when there is none; the cache is brought up to date. */
    method GetEntries(registry: Registry) returns (entries: SegmentedVector<Entry>)
      requires Valid()
      modifies this
      ensures Valid() && fresh(repr - old(repr)) && old(repr) <= repr
      ensures registry in entriesByRegistry && entries == entriesByRegistry[registry] && cachedEntries == entries
      ensures forall r, id :: Lookup(r, id) == old(Lookup(r, id))
    {
      NotInside();
      hide Owned, Lookup;
      if cachedRegistry != Some(registry) {
        cachedRegistry := Some(registry);
        if registry !in entriesByRegistry {
          cachedEntries := AddEntries(registry);
        } else {
          cachedEntries := entriesByRegistry[registry];
        }
      }
      entries := cachedEntries;
    }

    lemma {:induction false} NotInside()
      requires Owned()
      ensures this !in repr
    {
    }

    method AddEntries(registry: Registry) returns (created: SegmentedVector<Entry>)
      requires Owned() && registry !in entriesByRegistry
      modifies this`entriesByRegistry, this`subscribed, this`repr
      ensures Owned() && entriesByRegistry == old(entriesByRegistry)[registry := created]
      ensures fresh(repr - old(repr)) && old(repr) <= repr
      ensures forall r, id :: Lookup(r, id) == old(Lookup(r, id))
    {
      created := new SegmentedVector<Entry>(entryBytes);
      entriesByRegistry := entriesByRegistry[registry := created];
      subscribed := subscribed + {registry};
      repr := repr + {created};
    }

    /** The reading access: nothing is created for a registry that has no entries. */
    method ReadOnly(registry: Registry, id: nat) returns (entry: Entry)
      requires Valid()
      modifies this`cachedRegistry, this`cachedEntries
      ensures Valid() && entry == Lookup(registry, id)
      ensures forall r, i :: Lookup(r, i) == old(Lookup(r, i))
    {
      if cachedRegistry != Some(registry) {
        if registry !in entriesByRegistry {
          return defaultValue;
        }
        cachedRegistry := Some(registry);
        cachedEntries := entriesByRegistry[registry];
      }
      var entries: SegmentedVector<Entry> := cachedEntries;
      if id >= entries.theSize {
        return defaultValue;
      }
      entry := entries.Get(id);
    }

    /** The writing access first grows the vector to the registry's size; this changes no entry. */
    method Access(registry: Registry, id: nat, size: nat) returns (entries: SegmentedVector<Entry>)
      requires Valid() && id < size
      modifies this, repr
      ensures Valid() && fresh(repr - old(repr)) && old(repr) <= repr
      ensures registry in entriesByRegistry && entries == entriesByRegistry[registry] && id < entries.theSize
      ensures forall r, i :: Lookup(r, i) == old(Lookup(r, i))
    {
      entries := GetEntries(registry);
      if entries.theSize < size {
        entries.Resize(size, defaultValue);
        repr := repr + entries.repr;
      }
    }

    method Set(registry: Registry, id: nat, size: nat, entry: Entry)
      requires Valid() && id < size
      modifies this, repr
      ensures Valid() && fresh(repr - old(repr)) && old(repr) <= repr
      ensures forall r, i :: Lookup(r, i) == if r == registry && i == id then entry else old(Lookup(r, i))
    {
      var entries := Access(registry, id, size);
      entries.Set(id, entry);
    }

    /** Forgets a registry that is being destroyed, in the cache as well. */
    method RemoveStateRegistry(registry: Registry)
      requires Valid()
      modifies this
      ensures Valid() && registry !in subscribed
      ensures forall r, i :: Lookup(r, i) == if r == registry then defaultValue else old(Lookup(r, i))
    {
      entriesByRegistry := entriesByRegistry - {registry};
      subscribed := subscribed - {registry};
      if cachedRegistry == Some(registry) {
        cachedRegistry, cachedEntries := None, null;
      }
    }
  }
}
