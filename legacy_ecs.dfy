/**
 * The free-function ECS of the older revision (src/ecs.h, src/ecs.cpp): four global stores, an entity
 * list, and the position, render and reset systems over them.
 */
module LegacyEcs {
  import opened Common
  import opened LegacySparseSets

  /** A value of `Add<T>`'s component type: one of the four listed structs, or any other type. */
  datatype LegacyComponent =
    | PositionComponent(value: Vec2)
    | VelocityComponent(value: Vec2)
    | TextComponent(text: string)
    | ForceComponent(value: Vec2)
    | Unlisted

  datatype LegacyKind = PositionKind | VelocityKind | TextKind | ForceKind | OtherKind

  /** One `DrawText(text, x, y, fontSize, color)` call. */
  datatype TextDraw = TextDraw(text: string, x: int, y: int, fontSize: int, color: Color)

  const FONT_SIZE: int := 20

  /** The draw for one position and the text its entity owns; the float coordinates are truncated to int. */
  function DrawAt(pos: Owned<Vec2>, text: Owned<string>): (d: TextDraw)
    ensures d.text == text.component && d.fontSize == 20 && d.color == BLACK
    ensures d.x as real - 1.0 < pos.component.x < d.x as real + 1.0
    ensures d.y as real - 1.0 < pos.component.y < d.y as real + 1.0
  {
    TextDraw(text.component, TruncToInt(pos.component.x), TruncToInt(pos.component.y), FONT_SIZE, BLACK)
  }

  /** The draws RenderSystem emits for the positions `ps`, in their order. */
  function TextDraws(ps: seq<Owned<Vec2>>, texts: LegacyStore<string>): (draws: seq<TextDraw>)
    ensures |draws| <= |ps|
    ensures forall d :: d in draws ==> d.fontSize == FONT_SIZE && d.color == BLACK
  {
    if ps == [] then []
    else
      var p := ps[|ps| - 1];
      TextDraws(ps[..|ps| - 1], texts) + (if texts.Get(p.entity).Some? then [DrawAt(p, texts.Get(p.entity).value)] else [])
  }

  /** Every draw belongs to a position whose entity has a text, and every such position gets its draw. */
  lemma {:induction false} TextDrawsExactly(ps: seq<Owned<Vec2>>, texts: LegacyStore<string>)
    ensures |TextDraws(ps, texts)| <= |ps|
    ensures forall d :: d in TextDraws(ps, texts) <==>
              exists i :: 0 <= i < |ps| && texts.Get(ps[i].entity).Some? && d == DrawAt(ps[i], texts.Get(ps[i].entity).value)
  {
    if ps != [] {
      var init := ps[..|ps| - 1];
      TextDrawsExactly(init, texts);
      forall d | d in TextDraws(ps, texts)
        ensures exists i :: 0 <= i < |ps| && texts.Get(ps[i].entity).Some? && d == DrawAt(ps[i], texts.Get(ps[i].entity).value)
      {
        if d in TextDraws(init, texts) {
          var i :| 0 <= i < |init| && texts.Get(init[i].entity).Some? && d == DrawAt(init[i], texts.Get(init[i].entity).value);
          assert ps[i] == init[i];
        }
      }
      forall d | exists i :: 0 <= i < |ps| && texts.Get(ps[i].entity).Some? && d == DrawAt(ps[i], texts.Get(ps[i].entity).value)
        ensures d in TextDraws(ps, texts)
      {
        var i :| 0 <= i < |ps| && texts.Get(ps[i].entity).Some? && d == DrawAt(ps[i], texts.Get(ps[i].entity).value);
        if i < |ps| - 1 {
          assert init[i] == ps[i];
        }
      }
    }
  }

  /** Draws keep the positions' order: the draws for a concatenation are the concatenated draws. */
  lemma {:induction false} TextDrawsInOrder(ps: seq<Owned<Vec2>>, qs: seq<Owned<Vec2>>, texts: LegacyStore<string>)
    ensures TextDraws(ps + qs, texts) == TextDraws(ps, texts) + TextDraws(qs, texts)
    decreases |qs|
  {
    if qs == [] {
      assert ps + qs == ps;
    } else {
      var n := |qs| - 1;
      assert (ps + qs)[..|ps + qs| - 1] == ps + qs[..n];
      TextDrawsInOrder(ps, qs[..n], texts);
    }
  }

  /** When every positioned entity has a text, there is one draw per position. */
  lemma {:induction false} TextDrawsAll(ps: seq<Owned<Vec2>>, texts: LegacyStore<string>)
    requires forall i :: 0 <= i < |ps| ==> texts.Get(ps[i].entity).Some?
    ensures |TextDraws(ps, texts)| == |ps|
  {
    if ps != [] {
      TextDrawsAll(ps[..|ps| - 1], texts);
    }
  }

  /**
   * One PositionSystem step for one position. A force goes into a velocity when there is one, but into a
   * copy returned by Get, so neither the store nor the position sees it.
   */
  function Integrated(pos: Owned<Vec2>, forces: LegacyStore<Vec2>, velocities: LegacyStore<Vec2>): (r: Owned<Vec2>)
    ensures r.entity == pos.entity
    ensures forces.Get(pos.entity).Some? && velocities.Get(pos.entity).None? ==>
              r.component == pos.component.Plus(forces.Get(pos.entity).value.component)
    ensures velocities.Get(pos.entity).Some? && forces.Get(pos.entity).None? ==>
              r.component == pos.component.Plus(velocities.Get(pos.entity).value.component)
    ensures velocities.Get(pos.entity).Some? && forces.Get(pos.entity).Some? ==> r == pos
    ensures velocities.Get(pos.entity).None? && forces.Get(pos.entity).None? ==> r == pos
  {
    var force := forces.Get(pos.entity);
    var velocity := velocities.Get(pos.entity);
    if force.Some? then
      if velocity.Some? then pos
      else pos.(component := pos.component.Plus(force.value.component))
    else if velocity.Some? then pos.(component := pos.component.Plus(velocity.value.component))
    else pos
  }

  /** `ForEach<C...>(system)` builds a type mask and never invokes `system`: the list of invocations is empty. */
  function ForEach<F>(system: F): (invocations: seq<F>)
    ensures invocations == []
  {
    []
  }

  /** The globals of src/ecs.h: the entity list and the four inline stores. */
  class World {
    var entities: seq<nat>
    const positions: LegacySparseSet<Vec2>
    const velocities: LegacySparseSet<Vec2>
    const texts: LegacySparseSet<string>
    const forces: LegacySparseSet<Vec2>

    /** The three vector stores are distinct objects, and entity ids are their list positions. */
    ghost predicate Valid()
      reads this
    {
      && positions != velocities && positions != forces && velocities != forces
      && (forall i :: 0 <= i < |entities| ==> entities[i] == i)
    }

    /** Static initialisation: no entities, each store default-constructed with 10 EMPTY slots. */
    constructor ()
      ensures Valid() && entities == []
      ensures fresh(positions) && fresh(velocities) && fresh(texts) && fresh(forces)
      ensures positions.State() == LegacyStore(seq(INITIAL_ENTITIES, _ => EMPTY), [])
      ensures velocities.State() == LegacyStore(seq(INITIAL_ENTITIES, _ => EMPTY), [])
      ensures texts.State() == LegacyStore(seq(INITIAL_ENTITIES, _ => EMPTY), [])
      ensures forces.State() == LegacyStore(seq(INITIAL_ENTITIES, _ => EMPTY), [])
    {
      entities := [];
      positions := new LegacySparseSet<Vec2>();
      velocities := new LegacySparseSet<Vec2>();
      texts := new LegacySparseSet<string>();
      forces := new LegacySparseSet<Vec2>();
    }

    /** `CreateEntity`: the id is the list length before the call, so ids run 0, 1, 2, ... */
    method CreateEntity() returns (id: nat)
      requires Valid()
      modifies this
      ensures Valid()
      ensures id == old(|entities|) && entities == old(entities) + [id]
    {
      id := |entities|;
      entities := entities + [id];
    }

    /** Which of the four stores, if any, `Add<T>` for this component would write; its id must lie inside that table. */
    predicate AddInRange(entity: nat, c: LegacyComponent)
      reads this, positions, velocities, texts, forces
    {
      match c
      case PositionComponent(_) => entity < |positions.sparse|
      case VelocityComponent(_) => entity < |velocities.sparse|
      case TextComponent(_) => entity < |texts.sparse|
      case ForceComponent(_) => entity < |forces.sparse|
      case Unlisted => true
    }

    /** `Add<T>(entity, args...)`: hands the built component to T's store and returns its answer; other types add nothing. */
    method Add(entity: nat, c: LegacyComponent) returns (ok: bool)
      requires Valid() && AddInRange(entity, c)
      modifies positions, velocities, texts, forces
      ensures Valid()
      ensures c.PositionComponent? ==>
                ok == !old(positions.State()).Contains(entity)
                && positions.State() == old(positions.State()).AfterAdd(entity, Owned(entity, c.value))
      ensures c.VelocityComponent? ==>
                ok == !old(velocities.State()).Contains(entity)
                && velocities.State() == old(velocities.State()).AfterAdd(entity, Owned(entity, c.value))
      ensures c.TextComponent? ==>
                ok == !old(texts.State()).Contains(entity)
                && texts.State() == old(texts.State()).AfterAdd(entity, Owned(entity, c.text))
      ensures c.ForceComponent? ==>
                ok == !old(forces.State()).Contains(entity)
                && forces.State() == old(forces.State()).AfterAdd(entity, Owned(entity, c.value))
      ensures c == Unlisted ==> !ok
      ensures !c.PositionComponent? ==> positions.State() == old(positions.State())
      ensures !c.VelocityComponent? ==> velocities.State() == old(velocities.State())
      ensures !c.TextComponent? ==> texts.State() == old(texts.State())
      ensures !c.ForceComponent? ==> forces.State() == old(forces.State())
    {
      // The local component's owner field is unset until the store stamps it; any value is overwritten.
      match c
      case PositionComponent(v) =>
        var stamped;
        ok, stamped := positions.Add(entity, Owned(entity, v));
      case VelocityComponent(v) =>
        var stamped;
        ok, stamped := velocities.Add(entity, Owned(entity, v));
      case TextComponent(s) =>
        var stamped;
        ok, stamped := texts.Add(entity, Owned(entity, s));
      case ForceComponent(v) =>
        var stamped;
        ok, stamped := forces.Add(entity, Owned(entity, v));
      case Unlisted => ok := false;
    }

    /** `Remove<T>(entity)`: removes from T's store only; a no-op for other types. */
    method Remove(t: LegacyKind, entity: nat)
      requires Valid()
      modifies positions, velocities, texts, forces
      ensures Valid()
      ensures positions.State() == if t == PositionKind then old(positions.State()).AfterRemove(entity) else old(positions.State())
      ensures velocities.State() == if t == VelocityKind then old(velocities.State()).AfterRemove(entity) else old(velocities.State())
      ensures texts.State() == if t == TextKind then old(texts.State()).AfterRemove(entity) else old(texts.State())
      ensures forces.State() == if t == ForceKind then old(forces.State()).AfterRemove(entity) else old(forces.State())
    {
      match t
      case PositionKind => positions.Remove(entity);
      case VelocityKind => velocities.Remove(entity);
      case TextKind => texts.Remove(entity);
      case ForceKind => forces.Remove(entity);
      case OtherKind =>
    }

    /**
     * `PositionSystem`: walks `positions.GetDense()` by reference and integrates each position in place.
     * Only positions change, and neither the table nor the number of positions does.
     */
    method PositionSystem()
      requires Valid()
      modifies positions
      ensures Valid()
      ensures positions.sparse == old(positions.sparse)
      ensures |positions.dense| == old(|positions.dense|)
      ensures forall i :: 0 <= i < |positions.dense| ==>
                positions.dense[i] == Integrated(old(positions.dense[i]), forces.State(), velocities.State())
      ensures unchanged(velocities, forces, texts)
    {
      var i := 0;
      while i < |positions.dense|
        invariant 0 <= i <= |positions.dense| == old(|positions.dense|)
        invariant positions.sparse == old(positions.sparse)
        invariant forall j :: 0 <= j < i ==>
                    positions.dense[j] == Integrated(old(positions.dense[j]), forces.State(), velocities.State())
        invariant forall j :: i <= j < |positions.dense| ==> positions.dense[j] == old(positions.dense[j])
      {
        var pos := positions.dense[i];
        var force := forces.State().Get(pos.entity);
        var velocity := velocities.State().Get(pos.entity);
        if force.Some? {
          if velocity.Some? {
            // Get returned a copy: this update is lost when the copy goes out of scope.
            var copy := velocity.value;
            copy := copy.(component := copy.component.Plus(force.value.component));
          } else {
            pos := pos.(component := pos.component.Plus(force.value.component));
          }
        } else if velocity.Some? {
          pos := pos.(component := pos.component.Plus(velocity.value.component));
        }
        positions.dense := positions.dense[i := pos];
        i := i + 1;
      }
    }

    /** `RenderSystem`: one text draw per position whose entity also has a text, in the positions' dense order. */
    method RenderSystem() returns (draws: seq<TextDraw>)
      ensures draws == TextDraws(positions.dense, texts.State())
    {
      draws := [];
      var i := 0;
      while i < |positions.dense|
        invariant 0 <= i <= |positions.dense|
        invariant draws == TextDraws(positions.dense[..i], texts.State())
      {
        var pos := positions.dense[i];
        var text := texts.State().Get(pos.entity);
        if text.Some? {
          draws := draws + [DrawAt(pos, text.value)];
        }
        assert positions.dense[..i + 1][..i] == positions.dense[..i];
        i := i + 1;
      }
      assert positions.dense[..i] == positions.dense;
    }

    /** `ResetSystem`: clears the forces store, so no force carries over to the next frame. */
    method ResetSystem()
      requires Valid()
      modifies forces
      ensures forces.sparse == [] && forces.dense == []
      ensures unchanged(positions, velocities, texts)
    {
      forces.Reset();
    }
  }
}
