/** The component kinds of the current revision (src/ecs.hpp), their constructors and the id counter. */
module Components {
  import opened Common

  datatype Shape = RECTANGLE | CIRCLE | LINE | RECTANGLE_SOLID | ELLIPSE | METEOR

  datatype UIElement = TEXT | BAR

  /** Draw layers, lowest first. */
  datatype Layer = SUB | GROUND | SKY

  /** The two alternatives of `GameStateValue` (a variant of float and int). */
  datatype GameStateValue = FloatValue(f: real) | IntValue(i: int)

  /**
   * One value per component struct. The owning-entity field every struct carries is not part of the
   * value: the store keeps it next to the value (`Owned`). Members a constructor leaves uninitialised
   * are not modelled (see the README).
   */
  datatype Component =
    | Position(value: Vec2)
    | Velocity(value: Vec2)
    | Collider(dimensions: Vec2, shape: Shape, collidedWith: Option<nat>)
    | Text(text: string, color: Color)
    | Force(value: Vec2)
    | Render(color: Color, dimensions: Vec2, shape: Shape, priority: Layer, noiseValues: seq<real>)
    | Sprite(texture: string, priority: Layer, scale: real)
    | UI(element: UIElement, uiColor: Option<Color>)
    | Health(amount: real)
    | Dmg(amount: real)
    | GameState(state: GameStateValue)
    | Weapon(shooter: nat, maxLength: real)
    | Input(pushForceStep: real, maxPushForce: real, pushForceStepHalf: real)
    | Emitter(rate: int, particleLifetime: real, particleShape: Shape, particleVelocity: Vec2, active: bool, timer: int)
    | Particle(emitter: nat, active: bool)
  {
    /**
     * `RenderComponent::IsVisible`: a shape is invisible once its governing dimension has shrunk to zero.
     * Circles and meteors are governed by the radius, rectangles by both sides, the other shapes by either.
     */
    predicate IsVisible()
      requires Render?
      ensures (shape == CIRCLE || shape == METEOR) ==> (IsVisible() <==> dimensions.x > 0.0)
      ensures shape == RECTANGLE ==> (IsVisible() <==> dimensions.x > 0.0 && dimensions.y > 0.0)
      ensures (shape == LINE || shape == RECTANGLE_SOLID || shape == ELLIPSE) ==>
                (IsVisible() <==> dimensions.x > 0.0 || dimensions.y > 0.0)
    {
      if shape == CIRCLE || shape == METEOR then dimensions.x > 0.0
      else if shape == RECTANGLE then dimensions.x > 0.0 && dimensions.y > 0.0
      else dimensions.x > 0.0 || dimensions.y > 0.0
    }
  }

  /** The closed set of component kinds, one store each; `Other` stands for any type that is not a component. */
  datatype Kind =
    | PositionKind | VelocityKind | ColliderKind | TextKind | RenderKind | SpriteKind | ForceKind
    | UIKind | HealthKind | DmgKind | GameStateKind | WeaponKind | InputKind | EmitterKind | ParticleKind
    | Other

  function KindOf(c: Component): (k: Kind)
    ensures k != Other
  {
    match c
    case Position(_) => PositionKind
    case Velocity(_) => VelocityKind
    case Collider(_, _, _) => ColliderKind
    case Text(_, _) => TextKind
    case Force(_) => ForceKind
    case Render(_, _, _, _, _) => RenderKind
    case Sprite(_, _, _) => SpriteKind
    case UI(_, _) => UIKind
    case Health(_) => HealthKind
    case Dmg(_) => DmgKind
    case GameState(_) => GameStateKind
    case Weapon(_, _) => WeaponKind
    case Input(_, _, _) => InputKind
    case Emitter(_, _, _, _, _, _) => EmitterKind
    case Particle(_, _) => ParticleKind
  }

  /** `ColliderComponent(width, height)`: an axis-aligned box that has collided with nothing yet. */
  function BoxCollider(width: real, height: real): (c: Component)
    ensures c.Collider? && c.shape == RECTANGLE && c.dimensions == Vec2(width, height) && c.collidedWith == None
  {
    Collider(Vec2(width, height), RECTANGLE, None)
  }

  /** `ColliderComponent(radius)`: a circle, whose radius fills both dimensions, that has collided with nothing yet. */
  function CircleCollider(radius: real): (c: Component)
    ensures c.Collider? && c.shape == CIRCLE && c.dimensions == Vec2(radius, radius) && c.collidedWith == None
  {
    Collider(Vec2(radius, radius), CIRCLE, None)
  }

  /** `TextComponent(text, color = BLACK)`. */
  function TextComponent(text: string, color: Color := BLACK): (c: Component)
    ensures c.Text? && c.text == text && c.color == color
  {
    Text(text, color)
  }

  /** `RenderComponent(priority, shape, color, width, height)`, for rectangles and lines; no noise samples. */
  function BoxRender(priority: Layer, shape: Shape, color: Color, width: real, height: real): (c: Component)
    ensures c.Render? && c.dimensions == Vec2(width, height) && c.noiseValues == []
    ensures c.shape == shape && c.priority == priority && c.color == color
  {
    Render(color, Vec2(width, height), shape, priority, [])
  }

  /** `RenderComponent(priority, shape, color, radius)`, for circles: the radius fills both dimensions. */
  function RoundRender(priority: Layer, shape: Shape, color: Color, radius: real): (c: Component)
    ensures c.Render? && c.dimensions == Vec2(radius, radius) && c.noiseValues == []
    ensures c.shape == shape && c.priority == priority && c.color == color
  {
    Render(color, Vec2(radius, radius), shape, priority, [])
  }

  /** A render component built from one radius is visible exactly when the radius is positive, whatever its shape. */
  lemma RoundRenderVisibility(priority: Layer, shape: Shape, color: Color, radius: real)
    ensures RoundRender(priority, shape, color, radius).IsVisible() <==> radius > 0.0
  {
  }

  /**
   * `RenderComponent(priority, shape, color, radius, noise_amplitude, point_count)`, for meteors: the
   * dimensions hold (radius, amplitude) and one scaled noise sample is pushed per outline point.
   * `noiseAt(i)` is the randomly seeded Perlin noise at (i, 0). A negative count makes `reserve` throw.
   */
  method MeteorRender(priority: Layer, shape: Shape, color: Color, radius: real, noiseAmplitude: real,
                      pointCount: int, noiseAt: nat -> real)
    returns (c: Component)
    requires pointCount >= 0
    ensures c.Render? && c.shape == shape && c.priority == priority && c.color == color
    ensures c.dimensions == Vec2(radius, noiseAmplitude)
    ensures |c.noiseValues| == pointCount
    ensures forall i :: 0 <= i < pointCount ==> c.noiseValues[i] == noiseAt(i) * noiseAmplitude
  {
    var noiseValues: seq<real> := [];
    var i := 0;
    while i < pointCount
      invariant 0 <= i <= pointCount
      invariant |noiseValues| == i
      invariant forall j :: 0 <= j < i ==> noiseValues[j] == noiseAt(j) * noiseAmplitude
    {
      noiseValues := noiseValues + [noiseAt(i) * noiseAmplitude];
      i := i + 1;
    }
    c := Render(color, Vec2(radius, noiseAmplitude), shape, priority, noiseValues);
  }

  /** `SpriteComponent(priority, filename[, scale])`; the texture is identified by its file name. */
  function SpriteComponent(priority: Layer, filename: string, scale: real := 1.0): (c: Component)
    ensures c.Sprite? && c.texture == filename && c.priority == priority && c.scale == scale
  {
    Sprite(filename, priority, scale)
  }

  /**
   * `SpriteComponent`'s move assignment on the modelled fields: the target takes the source's texture,
   * layer and owner, but `scale` is never assigned, so the target keeps its own.
   */
  function SpriteMoveAssign(target: Owned<Component>, source: Owned<Component>): (r: Owned<Component>)
    requires target.component.Sprite? && source.component.Sprite?
    ensures r.entity == source.entity && r.component.Sprite?
    ensures r.component.texture == source.component.texture && r.component.priority == source.component.priority
    ensures r.component.scale == target.component.scale
  {
    Owned(source.entity, source.component.(scale := target.component.scale))
  }

  /**
   * `std::swap(a, b)` on two stored sprites: a temporary is move-constructed from `a` (the move
   * constructor moves every field), then `a = std::move(b)` and `b = std::move(tmp)`.
   */
  function SpriteSwap(a: Owned<Component>, b: Owned<Component>): (r: (Owned<Component>, Owned<Component>))
    requires a.component.Sprite? && b.component.Sprite?
    ensures r.0.entity == b.entity && r.1.entity == a.entity
    ensures r.0.component.Sprite? && r.1.component.Sprite?
    ensures r.0.component.texture == b.component.texture && r.1.component.texture == a.component.texture
    ensures r.0.component.priority == b.component.priority && r.1.component.priority == a.component.priority
  {
    var tmp := a;
    (SpriteMoveAssign(a, b), SpriteMoveAssign(b, tmp))
  }

  /**
   * The swap in `SparseSet::Remove` exchanges texture, layer and owner, but each slot keeps its scale:
   * the sprite moved into the freed slot takes the removed sprite's scale instead of its own.
   */
  lemma SpriteSwapKeepsScales(a: Owned<Component>, b: Owned<Component>)
    requires a.component.Sprite? && b.component.Sprite?
    ensures SpriteSwap(a, b).1.entity == a.entity && SpriteSwap(a, b).0.entity == b.entity
    ensures SpriteSwap(a, b).1.component.texture == a.component.texture
    ensures SpriteSwap(a, b).1.component.priority == a.component.priority
    ensures SpriteSwap(a, b).0.component.scale == a.component.scale
    ensures SpriteSwap(a, b).1.component.scale == b.component.scale
    ensures a.component.scale != b.component.scale ==> SpriteSwap(a, b).1 != a
  {
  }

  /** `UIComponent(type)` leaves the color unset; `UIComponent(type, color)` sets it. */
  function UIComponent(element: UIElement, color: Option<Color> := None): (c: Component)
    ensures c.UI? && c.element == element && c.uiColor == color
  {
    UI(element, color)
  }

  /** `InputComponent(step, max)` precomputes half the step. */
  function InputComponent(pushForceStep: real, maxPushForce: real): (c: Component)
    ensures c.Input? && c.pushForceStep == pushForceStep && c.maxPushForce == maxPushForce
    ensures c.pushForceStepHalf * 2.0 == c.pushForceStep
  {
    Input(pushForceStep, maxPushForce, pushForceStep / 2.0)
  }

  /** `EmitterComponent(rate, lifetime, shape, velocity)`: starts inactive with its frame timer at zero. */
  function EmitterComponent(emissionRate: int, particleLifetime: int, particleShape: Shape, particleVelocity: Vec2)
    : (c: Component)
    ensures c.Emitter? && !c.active && c.timer == 0
    ensures c.rate == emissionRate && c.particleLifetime == particleLifetime as real
    ensures c.particleShape == particleShape && c.particleVelocity == particleVelocity
  {
    Emitter(emissionRate, particleLifetime as real, particleShape, particleVelocity, false, 0)
  }

  /** `ParticleComponent(emitter)`: starts active. */
  function ParticleComponent(emitter: nat): (c: Component)
    ensures c.Particle? && c.active && c.emitter == emitter
  {
    Particle(emitter, true)
  }

  /** `size_t` wraps modulo 2^64. */
  const SIZE_T_MODULUS: nat := 0x1_0000_0000_0000_0000

  /** `ThreadSafeIdGenerator`, whose static atomic counter is modelled sequentially as one object's field. */
  class IdGenerator {
    var counter: nat

    /**
     * The static counter is declared in src/ecs.hpp and defined in another translation unit, outside this
     * model, so its starting value is a parameter.
     */
    constructor (start: nat)
      requires start < SIZE_T_MODULUS
      ensures counter == start
    {
      counter := start;
    }

    /** `getNextId`: the current value; the counter advances by one (fetch_add wraps at 2^64). */
    method GetNextId() returns (id: nat)
      requires counter < SIZE_T_MODULUS
      modifies this
      ensures id == old(counter)
      ensures counter == (old(counter) + 1) % SIZE_T_MODULUS
      ensures old(counter) + 1 < SIZE_T_MODULUS ==> counter == id + 1
    {
      id := counter;
      counter := (counter + 1) % SIZE_T_MODULUS;
    }

    /** `getCurrentId`: the value the next call of GetNextId hands out. */
    method GetCurrentId() returns (id: nat)
      ensures id == counter
    {
      id := counter;
    }

    /** `reset(value = 0)`. */
    method Reset(value: nat := 0)
      requires value < SIZE_T_MODULUS
      modifies this
      ensures counter == value
    {
      counter := value;
    }
  }
}
