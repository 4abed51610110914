# Minoids ECS core in Dafny

This project models the Entity-Component-System of the 2D arcade game *Minoids*, together with its
progression record and event table. It proves properties of that model. The repository has two
revisions of the ECS, and both are modelled because they behave differently.

- **Current revision** (`src/sparse-set.hpp`, `src/ecs.hpp`):
  - `sparse_set.dfy`: the sparse-set store. `Store<T>` is the store as a value: its invariant
    `Valid`, its abstract `Mapping` from entity to component, and the effect of `Add` and
    `Remove`. `SparseSet<T>` is the class whose methods update the `sparse`/`dense` fields in place.
    Each method is proved to produce exactly the value-level effect. The lemmas prove:
    - the invariant is preserved;
    - `Get` resolves exactly the mapped entities;
    - `Remove` repoints the moved element;
    - any sequence of adds and removes refines a plain finite map.
  - `components.dfy`: the fifteen component structs as one `Component` datatype, `IsVisible`, the
    constructors and their defaults, the meteor constructor's sampling loop, and the id counter.
  - `registry.dfy`: `Registry`, with one store per component kind. It dispatches `Add`/`Remove`/`Get`
    by kind and keeps the `m_renders_sorted` flag.
- **Older revision** (`src/sparse-set.h`, `src/ecs.h`, `src/ecs.cpp`):
  - `legacy_sparse_set.dfy`: the older store. Its `contains` checks the owner, not the sentinel.
    `Get` returns a copy. `Remove` does not repoint the element it moves.
  - `legacy_ecs.dfy`: the global stores and entity list, as a `World` class. It models `Add`, `Remove`,
    `ForEach`, `CreateEntity`, and the position, render and reset systems. `RenderSystem` returns
    the list of `DrawText` calls it makes.
- `revisions.dfy`: one concrete removal run on both revisions.
- `game.dfy`: the `Game` record as the global `g_Game`, with its level-up, damage, lives, cores and
  score updates.
- `events.dfy`: `EventBus`, a name-to-handler table. Handlers are opaque tokens, and each call is
  recorded in a trace.
- `common.dfy`: shared vocabulary:
  - `Vec2` and `Color`;
  - the float-to-int truncation;
  - the `EMPTY` sentinel (2^64 − 2);
  - `Owned<T>`, a component with its owning-entity field.

Modelling choices:

- Floats are modelled as reals.
- The C++ float-to-int conversions are modelled as truncation toward zero. One is `lives = 3.f`; another
  is the `DrawText` coordinates.
- The owning-entity field is named `m_entity` in `src/sparse-set.hpp` and `entity` in the component
  structs. Both are the `entity` field of `Owned<T>`.
- The legacy `GetDense()` hands out a reference to the `dense` vector. It is modelled by
  `PositionSystem` writing the `dense` field of the positions store directly.
- Where the code departs from the usual sparse-set behaviour, the model follows the code:
  - The current `contains` answers true for every id outside the table. So `Add` of such an id
    returns false, and after `Reset` every `Add` is refused.
  - The legacy `Remove` leaves the moved element's sparse entry stale (see Findings).
- Undefined behaviour in the source becomes a precondition:
  - the current `Remove` with an id outside the table;
  - the legacy `Add` with an id outside the table.

  The legacy `contains` and `Get` may read `dense` past its end when the slot is EMPTY or stale.
  There the model answers "absent". `ContainsAsWritten` exposes the out-of-bounds read. Likewise
  `AddAsWritten` exposes the out-of-bounds write of the legacy `Add`.

## Model

| member | source | states |
|---|---|---|
| Common.TruncToInt | src/ecs.cpp:35 | the float-to-int conversion truncates toward zero: the result is within one of the input, on the input's side of zero |
| SparseSets.Store.Contains | src/sparse-set.hpp:30-32 | on a valid store, contains is true exactly for an id outside the table or an id that owns a component |
| SparseSets.Store.AfterAdd | src/sparse-set.hpp:36-44 | the table never grows; a contained id leaves the store as it is; otherwise one element owned by the id is appended after the old ones, sparse[id] records its index, and the id is then contained (AddAbsent states the mapping change) |
| SparseSets.Store.AfterRemove | src/sparse-set.hpp:57-68 | the table never grows; an id that is not contained leaves the store as it is; otherwise dense shrinks by one, the id's slot becomes EMPTY and it is no longer contained, and the last element lands in the freed slot with its sparse entry repointed there (RemovePresent states the mapping change) |
| SparseSets.Store.Get | src/sparse-set.hpp:46-54 | Get answers a slot exactly for entities that own a component; that slot's back-reference is the id and it holds the entity's component |
| SparseSets.DenseFitsSparse | src/sparse-set.hpp:36-44 | with a free in-range slot, dense is shorter than sparse, so the index Add records is never the EMPTY sentinel |
| SparseSets.AddRejected | src/sparse-set.hpp:30-44 | Add of an id outside the table or already present is refused and changes nothing |
| SparseSets.AddAbsent | src/sparse-set.hpp:36-44 | Add of an absent in-range id appends the component stamped with the id, sets sparse[id] to the old dense size, keeps the invariant, extends the mapping by that one pair, and Get then finds it |
| SparseSets.AddPreservesValid | src/sparse-set.hpp:36-44 | Add keeps the sparse/dense consistency invariant |
| SparseSets.RemovePreservesValid | src/sparse-set.hpp:57-68 | Remove keeps the sparse/dense consistency invariant |
| SparseSets.RemovePresent | src/sparse-set.hpp:57-68 | Remove of a present id shrinks dense by one, leaves Get(id) null, removes exactly that pair from the mapping, repoints the moved element to the freed slot, and leaves every other entity's Get unchanged |
| SparseSets.RemoveAbsent | src/sparse-set.hpp:57-68 | Remove of an in-range id without a component is a no-op |
| SparseSets.ResetRejectsEverything | src/sparse-set.hpp:70-74 | after Reset the store is empty and valid, every id counts as contained, and every Add is refused |
| SparseSets.Run | src/sparse-set.hpp:36-68 | any sequence of Adds and in-range Removes keeps the invariant and never changes the table size |
| SparseSets.RunRefinesMap | src/sparse-set.hpp:36-68 | the mapping after any sequence of Adds and Removes is the one a plain finite map with the same operations gives |
| SparseSets.SparseSet.constructor | src/sparse-set.hpp:18-23 | a new set has the requested number of sparse slots (default 20), all EMPTY, and no components |
| SparseSets.SparseSet.Add | src/sparse-set.hpp:36-44 | returns true exactly for an in-range id without a component; the new state is the value-level Add |
| SparseSets.SparseSet.Remove | src/sparse-set.hpp:57-68 | the in-place swap, repoint and pop gives the value-level Remove and drops exactly the entity from the mapping |
| SparseSets.SparseSet.Reset | src/sparse-set.hpp:70-74 | both vectors are empty and every id counts as contained |
| LegacySparseSets.LegacyStore.ContainsAsWritten | src/sparse-set.h:34-36 | where the unguarded contains reads dense in bounds it agrees with the guarded Contains; otherwise the slot indexes past the end of dense |
| LegacySparseSets.LegacyStore.Contains | src/sparse-set.h:34-36 | contains implies the id is inside the table; on a consistent store it is true exactly when some stored element is owned by the id |
| LegacySparseSets.LegacyStore.Get | src/sparse-set.h:49-57 | a returned copy is a stored element owned by the id, and the id is contained; on a consistent store Get returns a copy exactly when the id is contained (LegacyGetFinds) |
| LegacySparseSets.LegacyStore.AfterAdd | src/sparse-set.h:39-47 | the table never grows; a contained id leaves the store as it is; otherwise one element is appended after the old ones and the id is then contained |
| LegacySparseSets.LegacyStore.AfterRemove | src/sparse-set.h:60-68 | the table never grows; an id that is not contained leaves the store as it is; otherwise dense shrinks by one and the id's slot becomes EMPTY; no other sparse slot is ever rewritten, which is why the moved element is lost (LegacyRemoveLosesMoved) |
| LegacySparseSets.LegacyStore.AddAsWritten | src/sparse-set.h:39-47 | an id outside the table is never contained, so Add writes sparse[id] past the end of the table; inside the table the result is the value-level Add |
| LegacySparseSets.LegacyAddAfterResetWritesPastEnd | src/sparse-set.h:34-47 | after Reset contains answers false for every id and every Add writes past the end of the empty table |
| LegacySparseSets.LegacyContainsReadsPastEnd | src/sparse-set.h:34-47 | for every free in-range slot, and so for every id of a new store, contains reads past the end of dense |
| LegacySparseSets.LegacyGetFinds | src/sparse-set.h:49-57 | on a consistent store, Get returns a copy exactly when some element is owned by the id, that copy is the owned element, and Get agrees with Contains |
| LegacySparseSets.LegacyAddAbsent | src/sparse-set.h:39-47 | Add of an absent in-range id stamps the item, appends it, records the old dense size, keeps consistency, and Get then returns the stamped item |
| LegacySparseSets.LegacyAddPresent | src/sparse-set.h:39-47 | Add of a present id changes nothing |
| LegacySparseSets.LegacyRemovePresent | src/sparse-set.h:60-68 | Remove of a present id shrinks dense by one, sets only the removed id's slot to EMPTY, moves the last element into the freed slot, and leaves Get(id) null |
| LegacySparseSets.LegacyRemoveLosesMoved | src/sparse-set.h:60-68 | the moved element stays stored, but its slot still holds the old last index (now the dense size), so Get no longer finds it and consistency is broken |
| LegacySparseSets.LegacyRemoveLastKeepsConsistent | src/sparse-set.h:63-66 | removing the element that is last in dense keeps consistency |
| LegacySparseSets.LegacySparseSet.constructor | src/sparse-set.h:22-27 | a new set has the requested number of sparse slots (default 10), all EMPTY, and no components |
| LegacySparseSets.LegacySparseSet.Add | src/sparse-set.h:39-47 | returns true exactly when the id was not contained, stamps the caller's item only then, and the new state is the value-level Add |
| LegacySparseSets.LegacySparseSet.Remove | src/sparse-set.h:60-68 | the in-place swap and pop gives the value-level Remove, with no repointing |
| LegacySparseSets.LegacySparseSet.Reset | src/sparse-set.h:70-74 | both vectors are empty |
| Revisions.RemoveFirstOfTwo | src/sparse-set.h:60-68 | with entities 0 and 1 stored, removing 0 loses entity 1 in the older revision, while the current revision finds it in slot 0 |
| Components.Component.IsVisible | src/ecs.hpp:179-187 | circles and meteors are visible iff the radius is positive; rectangles iff both sides are; the other shapes iff either side is |
| Components.BoxCollider | src/ecs.hpp:96-97 | a box collider is a RECTANGLE with dimensions (w, h) that has collided with nothing |
| Components.CircleCollider | src/ecs.hpp:98 | a round collider is a CIRCLE with dimensions (r, r) that has collided with nothing |
| Components.TextComponent | src/ecs.hpp:110 | keeps the text; the color defaults to BLACK |
| Components.BoxRender | src/ecs.hpp:152-154 | dimensions (width, height), the given shape, layer and color, no noise samples |
| Components.RoundRender | src/ecs.hpp:156-157 | both dimensions are the radius, the given shape, layer and color, no noise samples |
| Components.RoundRenderVisibility | src/ecs.hpp:179-187 | a render built from one radius is visible exactly when the radius is positive, whatever its shape |
| Components.MeteorRender | src/ecs.hpp:159-172 | dimensions (radius, amplitude) and exactly point_count samples, the i-th being the noise at i scaled by the amplitude |
| Components.SpriteComponent | src/ecs.hpp:197-206 | keeps the layer and the texture's file name; the scale defaults to 1 |
| Components.SpriteMoveAssign | src/ecs.hpp:224-239 | the move assignment takes the source's texture, layer and owner, and the target keeps its own scale |
| Components.SpriteSwap | src/sparse-set.hpp:62 | std::swap of two stored sprites through the move constructor and move assignment of src/ecs.hpp:218-239 exchanges their owners, textures and layers (SpriteSwapKeepsScales states what happens to the scales) |
| Components.SpriteSwapKeepsScales | src/ecs.hpp:218-239 | the swap in Remove exchanges texture, layer and owner between two sprites, but each slot keeps its scale, so the moved sprite changes when the scales differ |
| Components.UIComponent | src/ecs.hpp:132-133 | keeps the element type; a color only when one is given |
| Components.InputComponent | src/ecs.hpp:294-296 | keeps step and maximum; the stored half is exactly half the step |
| Components.EmitterComponent | src/ecs.hpp:310-315 | starts inactive with its timer at zero; the integer lifetime becomes a float |
| Components.ParticleComponent | src/ecs.hpp:325-326 | starts active, bound to its emitter |
| Components.IdGenerator.constructor | src/ecs.hpp:50 | the counter starts at the given value |
| Components.IdGenerator.GetNextId | src/ecs.hpp:41 | returns the current value and advances the counter by one, wrapping at 2^64 |
| Components.IdGenerator.GetCurrentId | src/ecs.hpp:44 | returns the counter without changing it |
| Components.IdGenerator.Reset | src/ecs.hpp:47 | the counter becomes the given value (default 0) |
| Registries.Registry.constructor | src/ecs.hpp:336 | no entities; each of the fifteen kinds has its own fresh store with 20 EMPTY slots; the sorted flag starts false, as the value-initialisation at src/scene-next-round.cpp:34 zeroes it |
| Registries.Registry.Add | src/ecs.hpp:355-392 | only the kind's store changes, by the value-level Add, and its answer is returned; an unlisted type returns false; a render kind clears the sorted flag whether or not the insert succeeds |
| Registries.Registry.Remove | src/ecs.hpp:394-426 | only the kind's store changes, by the value-level Remove, losing exactly that entity; an unlisted type changes nothing |
| Registries.Registry.Get | src/ecs.hpp:428-462 | null for an unlisted type; otherwise a slot exactly when the entity owns a component of that kind, and the slot holds a component of that kind owned by the entity |
| LegacyEcs.TextDrawsExactly | src/ecs.cpp:29-37 | a draw is emitted exactly for each position whose entity has a text, with that text at that position in font size 20, black; there are never more draws than positions |
| LegacyEcs.TextDrawsInOrder | src/ecs.cpp:32-37 | draws follow the positions' dense order: the draws of a concatenation are the concatenated draws |
| LegacyEcs.TextDrawsAll | src/ecs.cpp:32-37 | when every positioned entity has a text, there is one draw per position |
| LegacyEcs.DrawAt | src/ecs.cpp:35 | one DrawText call: the entity's text, in font size 20, black, at integer coordinates within one of the position |
| LegacyEcs.TextDraws | src/ecs.cpp:32-37 | never more draws than positions, each in font size 20 and black (TextDrawsExactly states which draws appear) |
| LegacyEcs.Integrated | src/ecs.cpp:56-70 | force and no velocity: the force moves the position; velocity and no force: the velocity moves it; both or neither: the position stays |
| LegacyEcs.ForEach | src/ecs.h:107-117 | the given system is never invoked |
| LegacyEcs.World.constructor | src/ecs.h:55-60 | no entities; the four stores are default-constructed, with 10 EMPTY slots and no components |
| LegacyEcs.World.CreateEntity | src/ecs.cpp:17-21 | the id is the entity count before the call, and it is appended, so ids run 0, 1, 2, ... |
| LegacyEcs.World.Add | src/ecs.h:70-85 | the matching store does the value-level Add of the stamped component and returns its answer, and the other stores are unchanged; an unlisted type returns false and changes nothing |
| LegacyEcs.World.Remove | src/ecs.h:87-97 | only the matching store does the value-level Remove; an unlisted type changes nothing |
| LegacyEcs.World.PositionSystem | src/ecs.cpp:52-72 | each stored position becomes its Integrated value in place; the table and the number of positions stay, and the velocity, force and text stores are untouched, so a force added to a velocity copy is lost |
| LegacyEcs.World.RenderSystem | src/ecs.cpp:29-37 | the draws are the TextDraws of the positions in dense order |
| LegacyEcs.World.ResetSystem | src/ecs.cpp:74 | the forces store is empty and the other stores are untouched |
| Games.InitialLives | src/game.hpp:29 | the float 3 converted to int is 3 |
| Games.DefaultMeteors | src/game.hpp:33-41 | meteor defaults: count 3 to 5, size 20 to 50, damage 0.1, core size 10, core health 0.1 |
| Games.DefaultWeapon | src/game.hpp:44-48 | weapon defaults: damage 1, size 10, reach 60 |
| Games.Game.constructor | src/game.cpp:3 | the zero-initialised global: level, cores, score and max score 0, 3 lives, health 10, default meteor and weapon data |
| Games.Game.InitGame | src/game.cpp:5-7 | changes nothing |
| Games.Game.NextLevel | src/game.cpp:9-16 | level up by one; max meteors and max size become 5 and 50 plus the new level minus one; cores 0 and health 10; everything else stays; establishes the per-level scaling |
| Games.Game.ResetSpaceship | src/game.cpp:18 | health becomes 10, nothing else changes |
| Games.Game.MineMeteor | src/game.cpp:20-23 | score up by one, nothing else changes |
| Games.Game.DmgSpaceship | src/game.cpp:25 | health drops by the damage with no clamp, so it can go negative; nothing else changes |
| Games.Game.LoseLife | src/game.cpp:27 | lives drop by one with no floor; nothing else changes |
| Games.Game.GatherCore | src/game.cpp:29 | cores up by one, nothing else changes |
| Events.AfterTrigger | src/events.cpp:7-12 | Trigger adds the name, with an empty handler when it was unknown, and keeps every existing mapping |
| Events.Fired | src/events.cpp:7-11 | Trigger calls at most one handler: the one stored under the name, exactly when it is non-empty |
| Events.EventBus.constructor | src/events.hpp:16 | the table is empty and nothing has been called |
| Events.EventBus.Add | src/events.cpp:3-5 | the name maps to the new handler, replacing any old one; other names and the calls made are unchanged |
| Events.EventBus.Trigger | src/events.cpp:7-12 | the table becomes AfterTrigger and the calls made grow by exactly Fired |
| Events.TriggerTwice | src/events.cpp:7-12 | a second Trigger of a name leaves the table as it is and calls the same handler again |
| Events.AddThenTrigger | src/events.cpp:3-11 | Add(n, h) then Trigger(n) calls h, the last handler registered under n |

## Left out

- Drawing, input, window, audio and texture loading (raylib). `Sprite` keeps only the texture's file
  name, and texture ownership on move is not modelled. `RenderSystem` returns its `DrawText` calls
  instead of drawing them.
- Logging inside both `Remove`s (`fmt::println`, `std::cout`): output only.
- Randomness and noise (FastNoiseLite, `std::random_device`). The meteor constructor takes the noise
  as a function parameter `noiseAt`.
- Components.MeteorRender: requires `point_count >= 0`, because a negative count makes `reserve`
  throw. That exception path is not modelled.
- Components.IdGenerator: the atomics and memory ordering are not modelled; the counter is
  sequential. The static counter is defined in another translation unit, outside this model, so
  its start value is a constructor parameter.
- Component members that a constructor leaves uninitialised have no modelled value:
  - `WeaponComponent`'s `firingDuration` and `isFiring`;
  - `UIComponent`'s color from the one-argument constructor, modelled as `None`.
- Registries.Registry.constructor: default-initialisation would leave `m_renders_sorted`
  indeterminate. The program's only construction, `std::make_unique<ECS::Registry>()` at
  `src/scene-next-round.cpp:34`, value-initialises the registry and so zeroes the flag. The model
  starts it false.
- Registries.Registry: the systems declared at `src/ecs.hpp:339-352` are defined in another
  translation unit, outside this model: `CreateEntity`, `DeleteEntity`, `Init`, the position, render,
  UI, input, collision and particle systems, and `Debug`. So `Registry` has no entity-list
  operation beyond the empty initial list.
- Registries.Registry.Remove: for the sprite store, the source's swap keeps each slot's `scale`,
  because `SpriteComponent`'s move assignment never assigns it. The model moves the whole sprite.
  `Components.SpriteSwapKeepsScales` states the source's behaviour (see Findings).
- Registries.Registry.Add: the component is passed in already built. T's constructor functions in
  `components.dfy` stand for `T component{args...}`.
- `RegisterComponentGroup` and the type-index bitset bookkeeping of `ForEach` (`src/ecs.h:99-117`):
  the `operator[]` lookups insert empty entries into `s_typeToBitSetMap`, which nothing reads;
  not modelled. `Init` has an empty body.
- LegacySparseSets.LegacyStore.Contains and LegacySparseSets.LegacyStore.Get: where the source reads
  `dense` past its end (an EMPTY or stale slot), the model answers "absent". The read itself is
  exposed by `ContainsAsWritten`.
- SparseSets.SparseSet.Add and constructor: a `size_t` table cannot have more than EMPTY slots.
  The constructor's `requires initialNumOfEntities <= EMPTY` states that bound; it keeps every dense
  index below the sentinel.
- Games.Game: `int` fields are unbounded here. 32-bit overflow of `level`, `score`, `cores` and
  `lives` is undefined behaviour in the source and is not modelled.
- Common.TruncToInt: converting a float outside `int`'s range to `int` is undefined behaviour in the
  source. The model returns the unbounded truncation instead. This affects the `DrawText`
  coordinates of `DrawAt`.
- LegacyEcs.DrawAt: `DrawText` receives `m_value.c_str()`, so a text with an embedded NUL would be
  drawn only up to it. `TextDraw` keeps the whole string. No text in the program contains a NUL.
- Floating point is modelled as exact real arithmetic, with no rounding. This covers `health`, the
  vector additions of `PositionSystem` and the noise scaling.
- Events.EventBus: handler bodies are opaque tokens. A handler that itself calls `Add` or `Trigger`
  during `Trigger` is not modelled.
- `LoadLevel`, `IsGameWon` and `IsGameLost` are declared in `src/game.hpp`, and `src/game.cpp` does
  not define them; not modelled.

## Findings

| source | as written | input that shows it | evidently intended | confidence | as-written member | corrected member |
|---|---|---|---|---|---|---|
| src/sparse-set.h:60-68 | `Remove` swaps the last element into the freed slot but never rewrites that element's sparse entry | entities 0 and 1 stored at slots 0 and 1; Remove(0); Get(1) now reads slot 1, past the end of dense, and entity 1 is lost | rewrite the moved element's sparse entry to the freed index, as `src/sparse-set.hpp:61-63` does | high, not executed | LegacySparseSets.LegacyRemoveLosesMoved | SparseSets.RemovePresent |
| src/sparse-set.h:34-36 | `contains` indexes `dense[sparse[id]]` without checking for EMPTY, and Add calls it first | a new store (10 EMPTY slots), Add(0, item): contains reads dense[2^64 − 2] | test `sparse[id] != EMPTY` before reading dense, as `Get` at `src/sparse-set.h:52` does | high, not executed | LegacySparseSets.LegacyContainsReadsPastEnd | LegacySparseSets.LegacyGetFinds |
| src/ecs.hpp:224-239 | `SpriteComponent`'s move assignment never assigns `scale` (and assigns `priority` twice); `SparseSet::Remove` moves elements with `std::swap`, which uses it | sprites for entities 0 (scale 1) and 1 (scale 2), then `Remove<SpriteComponent>(0)`: entity 1's sprite lands in slot 0 with scale 1 | assign `scale` from the source like the other fields, as the move constructor at :218-222 does | high, not executed | Components.SpriteSwapKeepsScales | SparseSets.RemovePresent |
| src/sparse-set.h:70-74 | `Reset` clears `sparse`, and `contains` is false for any id outside the table, so a later `Add` writes `sparse[id]` out of bounds | `ResetSystem()` (which resets the forces store), then `Add<ForceComponent>(0, ...)` | refuse an id outside the table, as `contains` at `src/sparse-set.hpp:31` makes the current `Add` do; the only call of `ResetSystem` is commented out at `src/scene-intro.cpp:130` | medium, not executed | LegacySparseSets.LegacyAddAfterResetWritesPastEnd | SparseSets.ResetRejectsEverything |
