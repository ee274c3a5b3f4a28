/** The dependency container (app/config.py, `Container`): a dictionary of
    instances and a dictionary of factories, keyed by class. `get` answers
    from the instances first and otherwise builds the instance with the
    factory once and keeps it. */
module DependencyContainer {
  import opened Wrappers
  import opened Seqs

  /** Keys stand for classes and values for the objects stored; a factory
      is called with no arguments. */
  class Container<Key(==), Value> {
    var instances: map<Key, Value>
    var factories: map<Key, () -> Value>
    /** The keys whose factory has been called since the container was
        made or last cleared, in call order. */
    ghost var factoryCalls: seq<Key>

    /** Each factory has been called at most once since the last clear, and
        what it built is still kept. */
    ghost predicate Valid()
      reads this
    {
      && NoDup(factoryCalls)
      && forall k :: k in factoryCalls ==> k in instances
    }

    /** A new container is empty. */
    constructor()
      ensures Valid()
      ensures instances == map[] && factories == map[] && factoryCalls == []
    {
      instances := map[];
      factories := map[];
      factoryCalls := [];
    }

    /** `register`: stores the instance, replacing any earlier one; the
        factories are left alone. */
    method Register(key: Key, instance: Value)
      requires Valid()
      modifies this
      ensures Valid()
      ensures instances == old(instances)[key := instance]
      ensures factories == old(factories) && factoryCalls == old(factoryCalls)
    {
      instances := instances[key := instance];
    }

    /** `register_factory`: stores the factory, replacing any earlier one; an
        instance already kept for the key stays and is still what `get`
        returns. */
    method RegisterFactory(key: Key, factory: () -> Value)
      requires Valid()
      modifies this
      ensures Valid()
      ensures factories == old(factories)[key := factory]
      ensures instances == old(instances) && factoryCalls == old(factoryCalls)
    {
      factories := factories[key := factory];
    }

    /** `get`: a stored instance wins over any factory and changes nothing;
        failing that, the factory is called once and its result is kept and
        returned; with neither, `None` and nothing changes. */
    method Get(key: Key) returns (r: Option<Value>)
      requires Valid()
      modifies this
      ensures Valid()
      ensures key in old(instances) ==>
        r == Some(old(instances)[key]) && instances == old(instances) && factoryCalls == old(factoryCalls)
      ensures key !in old(instances) && key in factories ==>
        && r == Some(factories[key]())
        && instances == old(instances)[key := factories[key]()]
        && factoryCalls == old(factoryCalls) + [key]
      ensures key !in old(instances) && key !in factories ==>
        r == None && instances == old(instances) && factoryCalls == old(factoryCalls)
      ensures factories == old(factories)
      ensures r.Some? <==> key in instances
      ensures r.Some? ==> r.value == instances[key]
    {
      if key in instances {
        return Some(instances[key]);
      }
      if key in factories {
        var instance := factories[key]();
        instances := instances[key := instance];
        factoryCalls := factoryCalls + [key];
        return Some(instance);
      }
      return None;
    }

    /** `clear`: both dictionaries emptied, so `get` finds nothing for any key. */
    method Clear()
      requires Valid()
      modifies this
      ensures Valid()
      ensures instances == map[] && factories == map[] && factoryCalls == []
    {
      instances := map[];
      factories := map[];
      factoryCalls := [];
    }
  }
}
