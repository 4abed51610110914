/**
 * The component store of the current revision (src/sparse-set.hpp): a `sparse` table indexed by entity
 * id holding either EMPTY or an index into the `dense` array of stored components.
 */
module SparseSets {
  import opened Common

  /** Default number of sparse slots of a new store. */
  const INITIAL_ELEMENTS: nat := 20

  /** The two vectors of a store, as a value. */
  datatype Store<T> = Store(sparse: seq<nat>, dense: seq<Owned<T>>)
  {
    /**
     * The store invariant. The bounds keep every dense index below the EMPTY sentinel: there are never
     * more components than slots, and a size_t table has at most EMPTY slots.
     */
    ghost predicate Valid()
    {
      |dense| <= |sparse| <= EMPTY && Consistent(sparse, dense)
    }

    /** The abstract view: which entity owns which component. */
    ghost function Mapping(): (m: map<nat, T>)
    {
      map e: nat | e < |sparse| && sparse[e] != EMPTY && sparse[e] < |dense| :: dense[sparse[e]].component
    }

    /** `contains`: true for every id outside the sparse table, which is why Add never grows it. */
    predicate Contains(id: nat)
      ensures Valid() ==> (Contains(id) <==> id >= |sparse| || id in Mapping())
    {
      id >= |sparse| || sparse[id] != EMPTY
    }

    /** `Get`: the index of the dense slot the returned `T*` aliases, after checking the back-reference. */
    function Get(id: nat): (r: Option<nat>)
      requires Valid()
      ensures r.Some? <==> id in Mapping()
      ensures r.Some? ==> r.value < |dense| && dense[r.value].entity == id && dense[r.value].component == Mapping()[id]
    {
      if id < |sparse| && sparse[id] != EMPTY && dense[sparse[id]].entity == id then Some(sparse[id]) else None
    }

    /** The store after `Add(id, component)`: stamp the owner, record the slot, append. */
    function AfterAdd(id: nat, component: T): (r: Store<T>)
      ensures |r.sparse| == |sparse|
      ensures Contains(id) ==> r == this
      ensures !Contains(id) ==> |r.dense| == |dense| + 1 && r.dense[..|dense|] == dense && r.dense[|dense|].entity == id
      ensures !Contains(id) ==> r.sparse[id] == |dense| && (|dense| < EMPTY ==> r.Contains(id))
    {
      if Contains(id) then this else Store(sparse[id := |dense|], dense + [Owned(id, component)])
    }

    /** The store after `Remove(entity)`: swap the last element into the freed slot, repoint it, pop. */
    function AfterRemove(entity: nat): (r: Store<T>)
      requires Valid() && entity < |sparse|
      ensures |r.sparse| == |sparse|
      ensures !Contains(entity) ==> r == this
      ensures Contains(entity) ==> |r.dense| == |dense| - 1 && r.sparse[entity] == EMPTY && !r.Contains(entity)
      ensures Contains(entity) && sparse[entity] < |dense| - 1 ==>
                r.dense[sparse[entity]] == dense[|dense| - 1] && r.sparse[dense[|dense| - 1].entity] == sparse[entity]
    {
      if Contains(entity) then
        var index := sparse[entity];
        var last := dense[|dense| - 1];
        Store(sparse[last.entity := index][entity := EMPTY], dense[index := last][..|dense| - 1])
      else
        this
    }
  }

  /** The ids 0 .. n-1 of a table of n slots. */
  ghost function Slots(n: nat): (slots: set<nat>)
  {
    if n == 0 then {} else Slots(n - 1) + {n - 1}
  }

  lemma {:induction false} SlotsCount(n: nat)
    ensures |Slots(n)| == n
    ensures forall e: nat :: e in Slots(n) <==> e < n
  {
    if n > 0 {
      SlotsCount(n - 1);
    }
  }

  lemma {:induction false} OwnerCount<T>(dense: seq<Owned<T>>, k: nat)
    requires k <= |dense|
    requires forall i, j :: 0 <= i < j < |dense| ==> dense[i].entity != dense[j].entity
    ensures |set i | 0 <= i < k :: dense[i].entity| == k
  {
    if k > 0 {
      OwnerCount(dense, k - 1);
      var prev := set i | 0 <= i < k - 1 :: dense[i].entity;
      assert (set i | 0 <= i < k :: dense[i].entity) == prev + {dense[k - 1].entity};
      assert dense[k - 1].entity !in prev;
    }
  }

  /** A consistent store with a free in-range slot holds fewer components than it has slots. */
  lemma DenseFitsSparse<T>(s: Store<T>, id: nat)
    requires Consistent(s.sparse, s.dense) && |s.sparse| <= EMPTY && id < |s.sparse| && s.sparse[id] == EMPTY
    ensures |s.dense| < |s.sparse|
  {
    var owners := set i | 0 <= i < |s.dense| :: s.dense[i].entity;
    var slots := Slots(|s.sparse|);
    forall i, j | 0 <= i < j < |s.dense|
      ensures s.dense[i].entity != s.dense[j].entity
    {
      assert s.sparse[s.dense[i].entity] == i;
    }
    OwnerCount(s.dense, |s.dense|);
    SlotsCount(|s.sparse|);
    forall x | x in owners
      ensures x in slots
    {
      var i :| 0 <= i < |s.dense| && s.dense[i].entity == x;
    }
    SubsetCount(owners, slots);
    forall x | x in owners
      ensures x != id
    {
      var i :| 0 <= i < |s.dense| && s.dense[i].entity == x;
      assert s.sparse[x] == i < EMPTY;
    }
    assert |slots - {id}| == |slots| - 1;
    SubsetCount(owners, slots - {id});
  }

  lemma SubsetCount<X>(a: set<X>, b: set<X>)
    requires a <= b
    ensures |a| <= |b|
  {
    assert b == a + (b - a);
  }

  /** Add of an id outside the table or already present is rejected and changes nothing. */
  lemma AddRejected<T>(s: Store<T>, id: nat, component: T)
    requires s.Valid() && (id >= |s.sparse| || id in s.Mapping())
    ensures s.Contains(id) && s.AfterAdd(id, component) == s
  {
  }

  /** Add of an absent in-range id appends the stamped component and records its index. */
  lemma AddAbsent<T>(s: Store<T>, id: nat, component: T)
    requires s.Valid() && id < |s.sparse| && id !in s.Mapping()
    ensures !s.Contains(id)
    ensures s.AfterAdd(id, component).sparse == s.sparse[id := |s.dense|]
    ensures s.AfterAdd(id, component).dense == s.dense + [Owned(id, component)]
    ensures s.AfterAdd(id, component).Valid()
    ensures s.AfterAdd(id, component).Mapping() == s.Mapping()[id := component]
    ensures s.AfterAdd(id, component).Get(id) == Some(|s.dense|)
  {
    DenseFitsSparse(s, id);
    AddPreservesValid(s, id, component);
    var r := s.AfterAdd(id, component);
    forall x | x in r.Mapping()
      ensures x in s.Mapping()[id := component] && r.Mapping()[x] == s.Mapping()[id := component][x]
    {
      if x != id {
        assert r.sparse[x] == s.sparse[x];
      }
    }
  }

  /** Add keeps the store invariant. */
  lemma AddPreservesValid<T>(s: Store<T>, id: nat, component: T)
    requires s.Valid()
    ensures s.AfterAdd(id, component).Valid()
  {
    if !s.Contains(id) {
      DenseFitsSparse(s, id);
      var r := s.AfterAdd(id, component);
      forall i | 0 <= i < |r.dense|
        ensures r.dense[i].entity < |r.sparse| && r.sparse[r.dense[i].entity] == i
      {
        if i < |s.dense| {
          assert r.dense[i] == s.dense[i];
          assert s.dense[i].entity != id;
        }
      }
    }
  }

  /** Remove keeps the store invariant. */
  lemma RemovePreservesValid<T>(s: Store<T>, entity: nat)
    requires s.Valid() && entity < |s.sparse|
    ensures s.AfterRemove(entity).Valid()
  {
  }

  /**
   * Remove of a present id: dense shrinks by one, the id is gone, the element moved from the end keeps
   * resolving at the freed slot, and every other entity resolves exactly as before.
   */
  lemma RemovePresent<T>(s: Store<T>, entity: nat)
    requires s.Valid() && entity < |s.sparse| && entity in s.Mapping()
    ensures |s.AfterRemove(entity).dense| == |s.dense| - 1
    ensures s.AfterRemove(entity).Valid()
    ensures s.AfterRemove(entity).Get(entity) == None
    ensures s.AfterRemove(entity).Mapping() == s.Mapping() - {entity}
    ensures var moved := s.dense[|s.dense| - 1].entity;
            moved != entity ==> s.AfterRemove(entity).Get(moved) == Some(s.sparse[entity])
    ensures forall x: nat :: x != entity && x != s.dense[|s.dense| - 1].entity ==> s.AfterRemove(entity).Get(x) == s.Get(x)
  {
  }

  /** Remove of an in-range id that holds no component is a no-op. */
  lemma RemoveAbsent<T>(s: Store<T>, entity: nat)
    requires s.Valid() && entity < |s.sparse| && entity !in s.Mapping()
    ensures s.AfterRemove(entity) == s
  {
  }

  /** After Reset both vectors are empty, every id counts as contained and every Add is rejected. */
  lemma ResetRejectsEverything<T>(s: Store<T>, id: nat, component: T)
    requires s.sparse == [] && s.dense == []
    ensures s.Valid() && s.Mapping() == map[]
    ensures s.Contains(id) && s.AfterAdd(id, component) == s
  {
  }

  /** One store operation, for reasoning about arbitrary sequences of adds and removes. */
  datatype Op<T> = AddOp(id: nat, component: T) | RemoveOp(entity: nat)

  /** Every Remove in `ops` names an id inside a table of `n` slots (a larger id is undefined behaviour). */
  predicate RemovesInRange<T>(ops: seq<Op<T>>, n: nat)
  {
    forall i :: 0 <= i < |ops| && ops[i].RemoveOp? ==> ops[i].entity < n
  }

  /** Apply `ops` in order; the invariant survives any interleaving and the table never grows. */
  function Run<T>(s: Store<T>, ops: seq<Op<T>>): (r: Store<T>)
    requires s.Valid() && RemovesInRange(ops, |s.sparse|)
    ensures r.Valid() && |r.sparse| == |s.sparse|
    decreases |ops|
  {
    if ops == [] then s
    else
      match ops[0]
      case AddOp(id, component) =>
        AddPreservesValid(s, id, component);
        Run(s.AfterAdd(id, component), ops[1..])
      case RemoveOp(entity) =>
        RemovePreservesValid(s, entity);
        Run(s.AfterRemove(entity), ops[1..])
  }

  /** The same operations on a finite map: the reference behaviour a store must refine. */
  function MapRun<T>(m: map<nat, T>, n: nat, ops: seq<Op<T>>): (r: map<nat, T>)
    decreases |ops|
  {
    if ops == [] then m
    else
      match ops[0]
      case AddOp(id, component) =>
        MapRun(if id < n && id !in m then m[id := component] else m, n, ops[1..])
      case RemoveOp(entity) =>
        MapRun(m - {entity}, n, ops[1..])
  }

  /** Running operations on a store changes its Mapping exactly as the map reference does. */
  lemma {:induction false} RunRefinesMap<T>(s: Store<T>, ops: seq<Op<T>>)
    requires s.Valid() && RemovesInRange(ops, |s.sparse|)
    ensures Run(s, ops).Mapping() == MapRun(s.Mapping(), |s.sparse|, ops)
    decreases |ops|
  {
    if ops != [] {
      match ops[0]
      case AddOp(id, component) =>
        AddPreservesValid(s, id, component);
        if id < |s.sparse| && id !in s.Mapping() {
          AddAbsent(s, id, component);
        } else {
          AddRejected(s, id, component);
        }
        RunRefinesMap(s.AfterAdd(id, component), ops[1..]);
      case RemoveOp(entity) =>
        RemovePreservesValid(s, entity);
        if entity in s.Mapping() {
          RemovePresent(s, entity);
        } else {
          RemoveAbsent(s, entity);
          assert s.Mapping() - {entity} == s.Mapping();
        }
        RunRefinesMap(s.AfterRemove(entity), ops[1..]);
    }
  }

  /** `SparseSet<T>`: the two vectors as fields that the operations update in place. */
  class SparseSet<T> {
    var sparse: seq<nat>
    var dense: seq<Owned<T>>

    function State(): (s: Store<T>)
      reads this
    {
      Store(sparse, dense)
    }

    ghost predicate Valid()
      reads this
    {
      State().Valid()
    }

    /** A fresh vector has capacity 0, so the table is resized to the requested size whenever that is non-zero. */
    constructor (initialNumOfEntities: nat := INITIAL_ELEMENTS)
      requires initialNumOfEntities <= EMPTY
      ensures Valid()
      ensures sparse == seq(initialNumOfEntities, _ => EMPTY) && dense == []
      ensures State().Mapping() == map[]
    {
      sparse := [];
      dense := [];
      if initialNumOfEntities > 0 {
        sparse := seq(initialNumOfEntities, _ => EMPTY);
      }
    }

    method Add(id: nat, component: T) returns (ok: bool)
      requires Valid()
      modifies this
      ensures Valid()
      ensures ok == !old(State()).Contains(id)
      ensures ok <==> id < old(|sparse|) && id !in old(State()).Mapping()
      ensures State() == old(State()).AfterAdd(id, component)
    {
      AddPreservesValid(State(), id, component);
      ok := false;
      if !State().Contains(id) {
        sparse := sparse[id := |dense|];
        dense := dense + [Owned(id, component)];
        ok := true;
      }
    }

    method Remove(entity: nat)
      requires Valid() && entity < |sparse|
      modifies this
      ensures Valid()
      ensures State() == old(State()).AfterRemove(entity)
      ensures State().Mapping() == old(State().Mapping()) - {entity}
    {
      ghost var before := State();
      RemovePreservesValid(before, entity);
      if entity in before.Mapping() {
        RemovePresent(before, entity);
      } else {
        RemoveAbsent(before, entity);
        assert before.Mapping() - {entity} == before.Mapping();
      }
      if State().Contains(entity) {
        var index := sparse[entity];
        var lastItemsEntity := dense[|dense| - 1].entity;
        var removed, last := dense[index], dense[|dense| - 1];
        dense := dense[|dense| - 1 := removed][index := last];
        sparse := sparse[lastItemsEntity := index];
        sparse := sparse[entity := EMPTY];
        dense := dense[..|dense| - 1];
        assert dense == before.dense[index := last][..|before.dense| - 1];
      }
    }

    method Reset()
      requires Valid()
      modifies this
      ensures Valid()
      ensures sparse == [] && dense == []
      ensures forall id: nat :: State().Contains(id)
    {
      sparse := [];
      dense := [];
    }
  }
}
