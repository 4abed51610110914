/** Value types shared by both revisions of the component store and by the systems on top of them. */
module Common {

  datatype Option<T> = None | Some(value: T)

  /** raylib's Vector2; floating point is modelled by real numbers (no rounding). */
  datatype Vec2 = Vec2(x: real, y: real)
  {
    function Plus(other: Vec2): (r: Vec2)
    {
      Vec2(x + other.x, y + other.y)
    }
  }

  /** raylib's Color, four 8-bit channels. */
  datatype Color = Color(r: int, g: int, b: int, a: int)

  const BLACK: Color := Color(0, 0, 0, 255)

  /** The implicit C++ conversion from float to int, which truncates toward zero. */
  function TruncToInt(x: real): (r: int)
    ensures x >= 0.0 ==> 0 <= r && r as real <= x < r as real + 1.0
    ensures x < 0.0 ==> r <= 0 && r as real - 1.0 < x <= r as real
  {
    if x >= 0.0 then x.Floor else -((-x).Floor)
  }

  /** The sentinel `EMPTY` of both sparse-set revisions: ULLONG_MAX - 1 as a size_t. */
  const EMPTY: nat := 0xFFFF_FFFF_FFFF_FFFE

  /** A stored component together with its owning-entity field, which the store stamps on insertion. */
  datatype Owned<T> = Owned(entity: nat, component: T)

  /**
   * The sparse/dense consistency invariant: every live sparse slot points at a dense element owned
   * by that entity, and every dense element's owner points back at the element's index.
   */
  ghost predicate Consistent<T>(sparse: seq<nat>, dense: seq<Owned<T>>)
  {
    && (forall e :: 0 <= e < |sparse| && sparse[e] != EMPTY ==> sparse[e] < |dense| && dense[sparse[e]].entity == e)
    && (forall i :: 0 <= i < |dense| ==> dense[i].entity < |sparse| && sparse[dense[i].entity] == i)
  }
}
