/** `ECS::Registry` of the current revision (src/ecs.hpp): one store per component kind and generic dispatch. */
module Registries {
  import opened Common
  import opened SparseSets
  import opened Components

  /** Every component kind, the order of the store fields. */
  const ALL_KINDS: seq<Kind> := [PositionKind, VelocityKind, ColliderKind, TextKind, ForceKind, RenderKind,
                                 SpriteKind, UIKind, HealthKind, DmgKind, GameStateKind, WeaponKind,
                                 InputKind, EmitterKind, ParticleKind]

  class Registry {
    var entities: seq<nat>
    /** The fifteen stores, by kind; the C++ template argument `T` of Add/Remove/Get selects one. */
    const stores: map<Kind, SparseSet<Component>>
    var rendersSorted: bool

    /**
     * Each listed kind has its own store, the stores are distinct objects, each keeps its invariant, and
     * each holds only components of its own kind (what the C++ type system guarantees).
     */
    ghost predicate Valid()
      reads this, stores.Values
    {
      && (forall k :: k in stores <==> k != Other)
      && (forall k1, k2 :: k1 in stores && k2 in stores && k1 != k2 ==> stores[k1] != stores[k2])
      && (forall k :: k in stores ==> stores[k].Valid())
      && (forall k, i :: k in stores && 0 <= i < |stores[k].dense| ==> KindOf(stores[k].dense[i].component) == k)
    }

    /**
     * `Registry() = default`: no entities, every store default-constructed. `m_renders_sorted` has no
     * initializer, but the defaulted constructor is not user-provided, and the program's only construction,
     * `std::make_unique<ECS::Registry>()`, value-initialises the object, so the flag starts zeroed (false).
     */
    constructor ()
      ensures Valid() && fresh(stores.Values)
      ensures entities == [] && !rendersSorted
      ensures forall k :: k in stores ==> stores[k].sparse == seq(INITIAL_ELEMENTS, _ => EMPTY) && stores[k].dense == []
    {
      entities := [];
      rendersSorted := false;
      var m: map<Kind, SparseSet<Component>> := map[];
      var i := 0;
      while i < |ALL_KINDS|
        invariant 0 <= i <= |ALL_KINDS|
        invariant forall k :: k in m <==> k in ALL_KINDS[..i]
        invariant forall k1, k2 :: k1 in m && k2 in m && k1 != k2 ==> m[k1] != m[k2]
        invariant forall k :: k in m ==> fresh(m[k]) && m[k].sparse == seq(INITIAL_ELEMENTS, _ => EMPTY) && m[k].dense == []
        invariant forall k :: k in m ==> m[k].Valid()
      {
        var store := new SparseSet<Component>();
        m := m[ALL_KINDS[i] := store];
        i := i + 1;
      }
      assert ALL_KINDS[..i] == ALL_KINDS;
      stores := m;
    }

    /**
     * `Add<T>(entity, args...)`: builds the component (here `component`, made by T's constructor) and hands
     * it to T's store only; an unlisted T adds nothing. Adding a render component marks the render order
     * unsorted, whether or not the insert succeeds.
     */
    method Add(entity: nat, t: Kind, component: Component) returns (ok: bool)
      requires Valid() && (t == Other || KindOf(component) == t)
      modifies this, stores.Values
      ensures Valid()
      ensures t == Other ==> !ok
      ensures t != Other ==> ok == !old(stores[t].State()).Contains(entity)
      ensures t != Other ==> stores[t].State() == old(stores[t].State()).AfterAdd(entity, component)
      ensures forall k :: k in stores && k != t ==> stores[k].State() == old(stores[k].State())
      ensures rendersSorted == (if t == RenderKind then false else old(rendersSorted))
      ensures entities == old(entities)
    {
      if t == Other {
        return false;
      }
      if t == RenderKind {
        rendersSorted := false;
      }
      var store := stores[t];
      ghost var before := store.dense;
      ok := store.Add(entity, component);
      assert store.dense == before || store.dense == before + [Owned(entity, component)];
      forall i | 0 <= i < |store.dense|
        ensures KindOf(store.dense[i].component) == t
      {
        if i < |before| {
          assert store.dense[i] == before[i];
        }
      }
      forall k | k in stores && k != t
        ensures stores[k].State() == old(stores[k].State())
      {
        assert stores[k] != store;
      }
    }

    /** `Remove<T>(entity)`: removes from T's store only; an id outside that table is undefined behaviour. */
    method Remove(t: Kind, entity: nat)
      requires Valid() && (t != Other ==> entity < |stores[t].sparse|)
      modifies stores.Values
      ensures Valid()
      ensures t != Other ==> stores[t].State() == old(stores[t].State()).AfterRemove(entity)
      ensures t != Other ==> stores[t].State().Mapping() == old(stores[t].State().Mapping()) - {entity}
      ensures forall k :: k in stores && k != t ==> stores[k].State() == old(stores[k].State())
    {
      if t != Other {
        var store := stores[t];
        ghost var before := store.dense;
        store.Remove(entity);
        forall i | 0 <= i < |store.dense|
          ensures KindOf(store.dense[i].component) == t
        {
          assert store.dense[i] in before;
        }
      }
    }

    /**
     * `Get<T>(entity)`: where T's store holds the entity's component, the dense slot the returned `T*`
     * aliases; null for an unlisted T.
     */
    function Get(t: Kind, entity: nat): (r: Option<nat>)
      requires Valid()
      reads this, stores.Values
      ensures t == Other ==> r == None
      ensures t != Other ==> (r.Some? <==> entity in stores[t].State().Mapping())
      ensures r.Some? ==> r.value < |stores[t].dense| && stores[t].dense[r.value].entity == entity
      ensures r.Some? ==> KindOf(stores[t].dense[r.value].component) == t
    {
      if t == Other then None else stores[t].State().Get(entity)
    }
  }
}
