/** The view recycler: a pool of detached views and two registries, keyed by
    reuse identifier, of the nibs and classes new views are made from. */
module KolodaRecycling {
  import opened KolodaTypes

  /** A view class; its instances carry `identifier` as their own reuse
      identifier. */
  datatype ViewClass = ViewClass(name: string, identifier: string)

  /** An interface-builder file whose first top-level object is a view that
      carries `identifier`. */
  datatype Nib = Nib(name: string, identifier: string)

  /** What a dequeue yields: a pooled view (reset by its `prepareForReuse`),
      a fresh instance of the registered class, a fresh object from the
      registered nib (after its `setupAfterAwake`), or the fatal
      configuration error that stops the program. */
  datatype Dequeued =
    | Reused(item: View)
    | FromClass(item: View)
    | FromNib(item: View)
    | Fatal

  /** Some view in `pool` carries the identifier `id` itself. */
  predicate Pooled(pool: set<View>, id: string)
  {
    exists v :: v in pool && v.identifier == id
  }

  class KolodaRecycler {
    var unusedItems: set<View>
    var registeredNibs: map<string, Nib>
    var registeredClasses: map<string, ViewClass>
    /** Serial number of the next object the recycler instantiates. */
    var instantiated: nat

    /** No identifier is registered both as a nib and as a class. */
    ghost predicate Valid()
      reads this
    {
      registeredNibs.Keys !! registeredClasses.Keys
    }

    /** Some pooled view carries the identifier `id`. */
    predicate HasPooled(id: string)
      reads this
    {
      Pooled(unusedItems, id)
    }

    constructor ()
      ensures Valid()
      ensures unusedItems == {} && registeredNibs == map[] && registeredClasses == map[]
      ensures instantiated == 0
    {
      unusedItems := {};
      registeredNibs := map[];
      registeredClasses := map[];
      instantiated := 0;
    }

    /** Registers a nib for `id`; a class registered for `id` is dropped, so
      the last registration wins. */
    method RegisterNib(nib: Nib, id: string)
      requires Valid()
      modifies this
      ensures Valid()
      ensures registeredNibs == old(registeredNibs)[id := nib]
      ensures registeredClasses == old(registeredClasses) - {id}
      ensures unusedItems == old(unusedItems) && instantiated == old(instantiated)
    {
      registeredNibs := registeredNibs[id := nib];
      if id in registeredClasses {
        registeredClasses := registeredClasses - {id};
      }
    }

    /** Registers a class for `id`; a nib registered for `id` is dropped. */
    method RegisterClass(objectClass: ViewClass, id: string)
      requires Valid()
      modifies this
      ensures Valid()
      ensures registeredClasses == old(registeredClasses)[id := objectClass]
      ensures registeredNibs == old(registeredNibs) - {id}
      ensures unusedItems == old(unusedItems) && instantiated == old(instantiated)
    {
      registeredClasses := registeredClasses[id := objectClass];
      if id in registeredNibs {
        registeredNibs := registeredNibs - {id};
      }
    }

    /** Puts a detached view into the pool; the pool is a set, so a view
      enqueued twice is held once. */
    method Enqueue(item: View)
      requires Valid()
      modifies this
      ensures Valid()
      ensures unusedItems == old(unusedItems) + {item}
      ensures registeredNibs == old(registeredNibs) && registeredClasses == old(registeredClasses)
      ensures instantiated == old(instantiated)
    {
      unusedItems := unusedItems + {item};
    }

    /** A view for `id`: a pooled view that carries `id` itself, else a new
      instance of the class registered for `id`, else a new object from the
      nib registered for `id`, else the fatal error. Only the first case
      changes the pool (it removes the view), only the other two allocate. */
    method Dequeue(id: string) returns (r: Dequeued)
      requires Valid()
      modifies this
      ensures Valid()
      ensures registeredNibs == old(registeredNibs) && registeredClasses == old(registeredClasses)
      ensures r.Reused? <==> old(HasPooled(id))
      ensures r.Reused? ==> && r.item in old(unusedItems) && r.item.identifier == id
                            && unusedItems == old(unusedItems) - {r.item}
                            && instantiated == old(instantiated)
      ensures r.FromClass? <==> !old(HasPooled(id)) && id in registeredClasses
      ensures r.FromClass? ==> && r.item == View(ByRecycler(old(instantiated)), registeredClasses[id].identifier)
                               && unusedItems == old(unusedItems)
                               && instantiated == old(instantiated) + 1
      ensures r.FromNib? <==> !old(HasPooled(id)) && id !in registeredClasses && id in registeredNibs
      ensures r.FromNib? ==> && r.item == View(ByRecycler(old(instantiated)), registeredNibs[id].identifier)
                             && unusedItems == old(unusedItems)
                             && instantiated == old(instantiated) + 1
      ensures r.Fatal? <==> !old(HasPooled(id)) && id !in registeredClasses && id !in registeredNibs
      ensures r.Fatal? ==> unusedItems == old(unusedItems) && instantiated == old(instantiated)
    {
      if v :| v in unusedItems && v.identifier == id {
        unusedItems := unusedItems - {v};
        return Reused(v);
      }
      if id in registeredClasses {
        r := FromClass(View(ByRecycler(instantiated), registeredClasses[id].identifier));
        instantiated := instantiated + 1;
        return;
      }
      if id in registeredNibs {
        r := FromNib(View(ByRecycler(instantiated), registeredNibs[id].identifier));
        instantiated := instantiated + 1;
        return;
      }
      return Fatal;
    }

    /** Empties the pool; the registries are untouched. */
    method RemoveUnusedItems()
      requires Valid()
      modifies this
      ensures Valid()
      ensures unusedItems == {}
      ensures registeredNibs == old(registeredNibs) && registeredClasses == old(registeredClasses)
      ensures instantiated == old(instantiated)
    {
      unusedItems := {};
    }
  }
}
