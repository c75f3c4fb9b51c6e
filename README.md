# geng: derived ECS queries and window-event translation

This project models two parts of the geng game engine in Dafny and proves
properties of the models.

**`#[derive(Query)]`** (`crates/geng-ecs-derive/src/query.rs`). The macro
turns a struct whose named fields are themselves queries into a composite
query. It generates four things:

- `Output = Self`;
- `DirectBorrows`, the tuple of the fields' `DirectBorrows`;
- `borrow_direct`, which borrows every field from the entity in declaration
  order and returns early with `None` at the first refused field;
- `get_direct`, which unwraps every field's `get_direct` and assembles the
  struct.

The model has four parts:

- `borrow.dfy` (module `Borrow`): the per-component borrow cell that
  primitive queries acquire.
- `query.dfy` (module `Queries`):
  - queries and their borrows as datatypes;
  - the flat, all-or-nothing reference fold `AcquireAll` over a query's
    primitive guards, and the guards it tries, `Attempted`;
  - `get_direct` as a function.
- `entity.dfy` (module `Entities`): an `Entity` class whose cells the
  generated `borrow_direct` updates in place.
  - `BorrowDirect` is proved against `AcquireAll` and `Attempted`.
  - On an early return, the fields already bound drop and release their
    guards. Rust drops locals in reverse and tuple parts forward. The proof
    that this restores every cell holds for any release order: the held
    guards are treated as a multiset on top of a base state.
- `derive.dfy` (module `Derive`): the macro itself, from the parsed item to
  either the implementation or the panic that aborts the expansion.

**`Event::translate`** (`crates/geng/src/window/events/mod.rs`) is in
`events.dfy` (module `Events`). It returns a copy of the event:

- for `MouseDown`, `MouseUp` and `MouseMove`, the pointer position is moved;
- for `TouchStart` and `TouchMove`, every touch is moved;
- everything else comes back as it was, including `TouchEnd`.

The imperative `Translate` (a clone, then a loop over the touches) is proved
equal to the function `Translated`. The structural facts are proved about
`Translated`.

## Model

| member | source | states |
|---|---|---|
| Borrow.AcquireSpec | crates/geng-ecs-derive/src/query.rs:28 | A primitive borrow is refused exactly when the component is missing or conflictingly borrowed. A granted shared borrow adds one reader. A granted exclusive borrow marks the cell written. No other cell changes, and well-formed states stay well-formed. |
| Borrow.Release | crates/geng-ecs-derive/src/query.rs:28 | Dropping a guard changes only the cell it claims and keeps the set of components. |
| Borrow.AcquireHolding | crates/geng-ecs-derive/src/query.rs:28 | A granted borrow on cells that hold a multiset of guards gives the state that holds that multiset plus the new guard. |
| Borrow.ReleaseHolding | crates/geng-ecs-derive/src/query.rs:28 | Dropping any held guard gives the state that holds the multiset minus that guard, whatever order the guards were taken in. |
| Queries.GetDirect | crates/geng-ecs-derive/src/query.rs:31-34 | `get_direct` yields a value exactly when every component the query names is present, and that value has the query's shape. A derived struct is never `None`: it panics instead. A primitive never panics. |
| Queries.GetFields | crates/geng-ecs-derive/src/query.rs:32-33 | The unwrapped field values exist exactly when every field's components are present. There is one per field, in order, with the field's name, and each equals that field's own `get_direct`. |
| Queries.ConformsGuards | crates/geng-ecs-derive/src/query.rs:26-29 | A borrows value shaped like the query holds exactly the query's primitive guards in declaration order. Its type is the query's `DirectBorrows`, the tuple of the fields' types. |
| Queries.AcquireAllAppend | crates/geng-ecs-derive/src/query.rs:28 | Acquiring two guard sequences one after the other succeeds exactly when the first does and then the second does from where the first left the cells. |
| Queries.AttemptedAppend | crates/geng-ecs-derive/src/query.rs:28 | The guards tried for a concatenation are those of the first part, then, only if all of it was granted, those tried for the second. |
| Queries.AttemptedStopsAtFirstRefusal | crates/geng-ecs-derive/src/query.rs:28 | When everything is granted, every guard is tried. Otherwise the tried guards are a non-empty prefix: all but the last were granted and the last was refused, so nothing after it is tried. |
| Queries.AcquireAllHolding | crates/geng-ecs-derive/src/query.rs:28 | A granted sequence of borrows on top of held guards adds all of them to the held multiset. |
| Queries.ReleaseEachHolding | crates/geng-ecs-derive/src/query.rs:28 | Dropping held guards in any order removes exactly them from the held multiset. |
| Queries.HeldAfter | crates/geng-ecs-derive/src/query.rs:28 | The cells after a granted acquisition are the starting cells with those guards held. |
| Queries.AcquireThenReleaseRestores | crates/geng-ecs-derive/src/query.rs:28-29 | Dropping, in any order, every guard a granted acquisition took gives back exactly the cells it started from. |
| Queries.AcquireAllKeys | crates/geng-ecs-derive/src/query.rs:28 | A granted acquisition keeps the set of components and needed every requested component to be present. It also keeps the cells well-formed. |
| Queries.FieldsPassIsFlat | crates/geng-ecs-derive/src/query.rs:26-30 | Nesting: borrowing each field's whole query in turn, stopping at the first refused field, is the flat acquisition of all the fields' primitive guards. |
| Queries.ZeroFields | crates/geng-ecs-derive/src/query.rs:26-34 | A struct without fields tries no guard and always borrows. It realizes as the empty struct, and its `DirectBorrows` is `()`. |
| Queries.BorrowThenGet | crates/geng-ecs-derive/src/query.rs:27-34 | After a granted `borrow_direct`, `get_direct` on the same entity yields a value shaped like the query. |
| Entities.Entity.TryBorrow | crates/geng-ecs-derive/src/query.rs:28 | A primitive `borrow_direct` on the entity succeeds as `Acquire` says, and leaves the cells unchanged when refused. The attempt is recorded. |
| Entities.Entity.Drop | crates/geng-ecs-derive/src/query.rs:28-29 | Dropping a borrows value, with its tuple parts dropped first to last, removes exactly its guards from the held multiset. |
| Entities.Entity.DropBinding | crates/geng-ecs-derive/src/query.rs:28 | Dropping a binding made by a granted borrow restores the cells to what they were before it. |
| Entities.Entity.BorrowDirect | crates/geng-ecs-derive/src/query.rs:27-30 | Succeeds exactly when the flat acquisition of the query's guards in declaration order succeeds. It then leaves that state and returns borrows shaped like the query. A refusal leaves every cell as it was. The guards tried are those up to and including the first refused one. |
| Entities.Entity.BorrowFields | crates/geng-ecs-derive/src/query.rs:28-29 | The fields are borrowed in declaration order, with an early return at the first refused field. The result is the tuple with one conforming part per field, or `None` with the cells restored. The guards tried are the flat prefix up to the refusal. |
| Entities.Entity.BindRest | crates/geng-ecs-derive/src/query.rs:28-29 | The bindings after the first are made while the first is held. When one is refused, the first binding is dropped too, so the cells return to their state before the first binding. |
| Derive.FieldNames | crates/geng-ecs-derive/src/query.rs:17-20 | The field names exist exactly when every field is named. They come one per field, in declaration order. |
| Derive.Expand | crates/geng-ecs-derive/src/query.rs:3-41 | Panics with no generic parameter (line 10), for an enum or union (line 39), or for a field without a name (line 19), checked in that order. Otherwise the impl is for the item itself, its lifetime is the first generic parameter, its query lists the declared fields' names and types in order, and its `DirectBorrows` is the tuple of the fields' `DirectBorrows`. |
| Derive.ExpandedBorrowsType | crates/geng-ecs-derive/src/query.rs:26 | The generated `DirectBorrows` is the type the query protocol gives the generated query, so derived structs nest. |
| Derive.ExpandedQuery | crates/geng-ecs-derive/src/query.rs:25-33 | The generated `borrow_direct` asks for the declared fields' guards in declaration order. A successful `get_direct` yields `Self`: a record named after the item, with its field names in order. |
| Derive.ExpandNoFields | crates/geng-ecs-derive/src/query.rs:23-34 | A struct without fields derives an impl with an empty query and `DirectBorrows = ()`. |
| Events.ShiftTouches | crates/geng/src/window/events/mod.rs:71-75 | Every touch is moved by the offset, and the list keeps its length and order. |
| Events.Translated | crates/geng/src/window/events/mod.rs:58-79 | The variant is preserved. Mouse events move their position by the offset and keep `button` and `MouseMove`'s `delta`. `TouchStart` and `TouchMove` shift every touch, keeping length and order. `TouchEnd`, `Wheel`, `KeyDown` and `KeyUp` are returned equal to the input. |
| Events.Translate | crates/geng/src/window/events/mod.rs:58-79 | The clone-then-update-in-place procedure, including its loop over the touches, returns exactly `Translated`. |
| Events.TranslateOrigin | crates/geng/src/window/events/mod.rs:70-75 | Translating by the zero vector returns the event unchanged. |
| Events.TranslateTwice | crates/geng/src/window/events/mod.rs:70-75 | Two translations in a row equal one translation by the sum of the offsets. |
| Events.TranslateBack | crates/geng/src/window/events/mod.rs:70-75 | Translating by an offset and then by its opposite restores the event. |

## Left out

- The entity's component storage and the primitive `&T` / `&mut T` query implementations are not part of this model. The per-component borrow cell in `Borrow` is a modelling assumption: free, read by n shared guards, or written. A refused borrow changes nothing.
- Borrow.AcquireSpec: the reader count is unbounded. An overflow of the cell's shared-borrow counter is not modelled.
- Adding and removing components, worlds, and query kinds other than primitives and derived structs are not part of this model.
- The macro's token handling is not modelled:
  - turning the token stream into a string and parsing it back (lines 4-5, whose `unwrap` panics only on a malformed item);
  - `split_for_impl` and the copied generics and where-clause (line 7);
  - the `ecs` crate path (line 11);
  - the `unsafe` markers.
  A field's type is represented by the query it implements.
- Derive.Expand: the first generic parameter is taken as the query lifetime whatever its kind, as the macro does. That a type parameter there would give an implementation that does not compile is not modelled.
- `get_direct` reads the entity's cells. Which lifetime the returned references carry is not modelled.
- Events.Vec2: `vec2<f64>` is modelled as a pair of exact reals. Floating-point rounding is not modelled, so `TranslateTwice` and `TranslateBack` hold for the model and only up to rounding for `f64`.
- `Event::Wheel`'s field `delta` is named `wheelDelta`, because a field name shared by several variants must have one type here.
- `Key` and `MouseButton` are declared with all their variants. Their serialization, hashing and the platform event sources (the `web.rs` / `native.rs` backends) are not part of this model.
- `translate` takes `&self`. Events are values here, so the event passed in cannot change; that is not stated as a separate contract.
- Audio, asset loading, 2-D drawing, the `ugli` bindings and the example programs are not part of this model.
