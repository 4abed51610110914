/**
 * The component store of the older revision (src/sparse-set.h). It differs from the current one in
 * three ways: `contains` checks the owner instead of the EMPTY sentinel, `Get` hands out a copy, and
 * `Remove` does not repoint the element it moves.
 */
module LegacySparseSets {
  import opened Common

  /** Default number of sparse slots of a new store. */
  const INITIAL_ENTITIES: nat := 10

  datatype LegacyStore<T> = LegacyStore(sparse: seq<nat>, dense: seq<Owned<T>>)
  {
    /**
     * `contains`. The source reads `dense[sparse[id]]` even when that index is EMPTY or stale; here such
     * an out-of-bounds read answers false.
     */
    predicate Contains(id: nat)
      ensures Contains(id) ==> id < |sparse|
      ensures Consistent(sparse, dense) ==> (Contains(id) <==> exists i :: 0 <= i < |dense| && dense[i].entity == id)
    {
      id < |sparse| && sparse[id] < |dense| && dense[sparse[id]].entity == id
    }

    /**
     * `contains` as written: None where it reads `dense` past its end (undefined behaviour), otherwise
     * its answer, which then agrees with the guarded Contains.
     */
    function ContainsAsWritten(id: nat): (r: Option<bool>)
      ensures r.None? ==> id < |sparse| && sparse[id] >= |dense|
      ensures r.Some? ==> r.value == Contains(id)
    {
      if id >= |sparse| then Some(false)
      else if sparse[id] < |dense| then Some(dense[sparse[id]].entity == id)
      else None
    }

    /** `Get`: a fresh copy of the element, or null. A stale index past the end of `dense` answers null. */
    function Get(id: nat): (r: Option<Owned<T>>)
      ensures r.Some? ==> Contains(id) && r.value in dense && r.value.entity == id
      ensures Consistent(sparse, dense) && |dense| <= EMPTY ==> (r.Some? <==> Contains(id))
    {
      if id < |sparse| && sparse[id] != EMPTY && sparse[id] < |dense| && dense[sparse[id]].entity == id then
        Some(dense[sparse[id]])
      else
        None
    }

    /** The store after `Add(id, item)`; an id outside the table is undefined behaviour in the source. */
    function AfterAdd(id: nat, item: Owned<T>): (r: LegacyStore<T>)
      requires id < |sparse|
      ensures |r.sparse| == |sparse|
      ensures Contains(id) ==> r == this
      ensures !Contains(id) ==> |r.dense| == |dense| + 1 && r.dense[..|dense|] == dense && r.Contains(id)
    {
      if Contains(id) then this else LegacyStore(sparse[id := |dense|], dense + [item.(entity := id)])
    }

    /**
     * `Add` as written for any id: an id outside the table is never contained, so Add writes `sparse[id]`
     * past the end of the table (None); otherwise the store after the call.
     */
    function AddAsWritten(id: nat, item: Owned<T>): (r: Option<LegacyStore<T>>)
      ensures r.None? <==> id >= |sparse|
      ensures r.Some? ==> r.value == AfterAdd(id, item)
      ensures id >= |sparse| ==> ContainsAsWritten(id) == Some(false)
    {
      if id >= |sparse| then None else Some(AfterAdd(id, item))
    }

    /** The store after `Remove(entity)`: swap the last element into the freed slot and pop, with no fix-up. */
    function AfterRemove(entity: nat): (r: LegacyStore<T>)
      ensures |r.sparse| == |sparse|
      ensures !Contains(entity) ==> r == this
      ensures Contains(entity) ==> |r.dense| == |dense| - 1 && r.sparse[entity] == EMPTY
      ensures forall e :: 0 <= e < |sparse| && e != entity ==> r.sparse[e] == sparse[e]
    {
      if Contains(entity) then
        var index := sparse[entity];
        var last := dense[|dense| - 1];
        LegacyStore(sparse[entity := EMPTY], dense[index := last][..|dense| - 1])
      else
        this
    }
  }

  /** On a consistent store, Get finds exactly the element the entity owns, and agrees with Contains. */
  lemma LegacyGetFinds<T>(s: LegacyStore<T>, id: nat)
    requires Consistent(s.sparse, s.dense) && |s.dense| <= EMPTY
    ensures s.Get(id).Some? <==> exists i :: 0 <= i < |s.dense| && s.dense[i].entity == id
    ensures s.Get(id).Some? ==> s.Get(id).value in s.dense && s.Get(id).value.entity == id
    ensures s.Get(id).Some? <==> s.Contains(id)
  {
  }

  /**
   * Every in-range id without a component makes `contains` read `dense[EMPTY]`, past the end of `dense`.
   * Add calls `contains` first, so the first Add of each id into a new store reads out of bounds.
   */
  lemma {:induction false} LegacyContainsReadsPastEnd<T>(s: LegacyStore<T>, id: nat)
    requires |s.dense| <= EMPTY && id < |s.sparse| && s.sparse[id] == EMPTY
    ensures s.ContainsAsWritten(id) == None
    ensures !s.Contains(id)
    ensures var initial: LegacyStore<T> := LegacyStore(seq(INITIAL_ENTITIES, _ => EMPTY), []);
            forall k :: 0 <= k < INITIAL_ENTITIES ==> initial.ContainsAsWritten(k) == None
  {
  }

  /**
   * After `Reset` the table is empty, so `contains` answers false for every id and every later `Add`
   * writes `sparse[id]` past the end of the table. `ResetSystem` leaves the forces store in this state.
   */
  lemma LegacyAddAfterResetWritesPastEnd<T>(s: LegacyStore<T>, id: nat, item: Owned<T>)
    requires s.sparse == [] && s.dense == []
    ensures s.ContainsAsWritten(id) == Some(false) && !s.Contains(id)
    ensures s.AddAsWritten(id, item) == None
  {
  }

  /** Add of an absent in-range id stamps the item, appends it, records its index, and Get returns it. */
  lemma LegacyAddAbsent<T>(s: LegacyStore<T>, id: nat, item: Owned<T>)
    requires id < |s.sparse| && !s.Contains(id) && |s.dense| < EMPTY
    ensures s.AfterAdd(id, item).sparse == s.sparse[id := |s.dense|]
    ensures s.AfterAdd(id, item).dense == s.dense + [item.(entity := id)]
    ensures s.AfterAdd(id, item).Get(id) == Some(item.(entity := id))
    ensures Consistent(s.sparse, s.dense) ==> Consistent(s.AfterAdd(id, item).sparse, s.AfterAdd(id, item).dense)
  {
  }

  /** Add of a present id is rejected and changes nothing. */
  lemma LegacyAddPresent<T>(s: LegacyStore<T>, id: nat, item: Owned<T>)
    requires id < |s.sparse| && s.Contains(id)
    ensures s.AfterAdd(id, item) == s
  {
  }

  /**
   * Remove of a present id: dense shrinks by one, the id's slot becomes EMPTY, the last element lands in
   * the freed slot, and no other sparse slot is rewritten, so the moved element's slot keeps its old index.
   */
  lemma LegacyRemovePresent<T>(s: LegacyStore<T>, entity: nat)
    requires s.Contains(entity)
    ensures |s.AfterRemove(entity).dense| == |s.dense| - 1
    ensures s.AfterRemove(entity).sparse == s.sparse[entity := EMPTY]
    ensures s.AfterRemove(entity).Get(entity) == None
    ensures s.sparse[entity] < |s.dense| - 1 ==> s.AfterRemove(entity).dense[s.sparse[entity]] == s.dense[|s.dense| - 1]
  {
  }

  /**
   * The element moved by Remove is still stored but can no longer be found: its sparse slot still holds
   * the old last index, which is now one past the end of `dense`.
   */
  lemma LegacyRemoveLosesMoved<T>(s: LegacyStore<T>, entity: nat)
    requires Consistent(s.sparse, s.dense) && |s.dense| <= EMPTY && s.Contains(entity)
    requires s.dense[|s.dense| - 1].entity != entity
    ensures var moved := s.dense[|s.dense| - 1];
            && s.AfterRemove(entity).sparse[moved.entity] == |s.AfterRemove(entity).dense|
            && s.AfterRemove(entity).dense[s.sparse[entity]] == moved
            && s.Get(moved.entity) == Some(moved)
            && s.AfterRemove(entity).Get(moved.entity) == None
            && !Consistent(s.AfterRemove(entity).sparse, s.AfterRemove(entity).dense)
  {
  }

  /** Removing the entity that currently sits last in `dense` keeps the consistency invariant. */
  lemma LegacyRemoveLastKeepsConsistent<T>(s: LegacyStore<T>, entity: nat)
    requires Consistent(s.sparse, s.dense) && s.Contains(entity) && s.sparse[entity] == |s.dense| - 1
    ensures Consistent(s.AfterRemove(entity).sparse, s.AfterRemove(entity).dense)
  {
  }

  /** `SparseSet::SparseSet<T>`: the two vectors as fields that the operations update in place. */
  class LegacySparseSet<T> {
    var sparse: seq<nat>
    var dense: seq<Owned<T>>

    function State(): (s: LegacyStore<T>)
      reads this
    {
      LegacyStore(sparse, dense)
    }

    /** A fresh vector has capacity 0, so the table is resized to the requested size whenever that is non-zero. */
    constructor (initialNumOfEntities: nat := INITIAL_ENTITIES)
      ensures sparse == seq(initialNumOfEntities, _ => EMPTY) && dense == []
    {
      sparse := [];
      dense := [];
      if initialNumOfEntities > 0 {
        sparse := seq(initialNumOfEntities, _ => EMPTY);
      }
    }

    /** `Add` also stamps the caller's item (passed by reference) when it inserts it. */
    method Add(id: nat, item: Owned<T>) returns (ok: bool, stamped: Owned<T>)
      requires id < |sparse|
      modifies this
      ensures ok == !old(State()).Contains(id)
      ensures stamped == if ok then item.(entity := id) else item
      ensures State() == old(State()).AfterAdd(id, item)
    {
      ok := false;
      stamped := item;
      if !State().Contains(id) {
        stamped := stamped.(entity := id);
        sparse := sparse[id := |dense|];
        dense := dense + [stamped];
        ok := true;
      }
    }

    method Remove(entity: nat)
      modifies this
      ensures State() == old(State()).AfterRemove(entity)
    {
      if State().Contains(entity) {
        var index := sparse[entity];
        var removed, last := dense[index], dense[|dense| - 1];
        dense := dense[|dense| - 1 := removed][index := last];
        sparse := sparse[entity := EMPTY];
        dense := dense[..|dense| - 1];
        assert dense == old(dense)[index := last][..|old(dense)| - 1];
      }
    }

    method Reset()
      modifies this
      ensures sparse == [] && dense == []
    {
      sparse := [];
      dense := [];
    }
  }
}
