/**
 * The Query protocol as the derive macro generates it for a struct whose
 * named fields are themselves queries.
 *
 * A query is either primitive (one component type, shared or exclusive) or a
 * derived struct whose fields are queries, so composites nest. `borrow_direct`
 * of a struct acquires its fields in declaration order, which flattens to the
 * sequence `Leaves(q)` of primitive guards; the sequential, all-or-nothing fold
 * `AcquireAll` over that sequence is the reference definition that the
 * entity's imperative `BorrowDirect` is proved against.
 */
module Queries {
  import opened Wrappers
  import opened Borrow

  /** A query descriptor: a primitive `&T` / `&mut T`, or a derived struct. */
  datatype Query = Component(id: TypeId, access: Access) | Struct(name: string, fields: seq<Field>)

  /** One named field of a derived struct, with the query its type implements. */
  datatype Field = Field(name: string, query: Query)

  /** A `DirectBorrows` value: one guard, or the tuple of the fields' borrows. */
  datatype Borrows = Single(guard: Guard) | Tuple(parts: seq<Borrows>)

  /** The type `DirectBorrows` stands for: a guard type, or a tuple type. */
  datatype BorrowsType = GuardType(id: TypeId, access: Access) | TupleType(elems: seq<BorrowsType>)

  /** The value `get_direct` realizes: a view of one component, or the struct itself. */
  datatype Output = View(id: TypeId, access: Access) | Record(name: string, fields: seq<OutField>)

  datatype OutField = OutField(name: string, value: Output)

  /** Outcome of `get_direct`: `Some(out)`, `None`, or a panic from an `unwrap` of `None`. */
  datatype Fetched = Got(out: Output) | Missing | Panicked

  /* ---- Shapes ---- */

  /** The primitive guards `q` asks for, in the order `borrow_direct` acquires them. */
  function Leaves(q: Query): seq<Guard>
    decreases q, 1
  {
    match q
    case Component(id, access) => [Guard(id, access)]
    case Struct(_, fields) => LeavesOf(fields)
  }

  /** The guards of a field list: every field's guards, fields in declaration order. */
  function LeavesOf(fs: seq<Field>): seq<Guard>
    decreases fs, 0
  {
    if fs == [] then [] else Leaves(fs[0].query) + LeavesOf(fs[1..])
  }

  /** The guards held by a `DirectBorrows` value. */
  function Guards(b: Borrows): seq<Guard>
    decreases b, 1
  {
    match b
    case Single(g) => [g]
    case Tuple(parts) => FlatGuards(parts)
  }

  function FlatGuards(bs: seq<Borrows>): seq<Guard>
    decreases bs, 0
  {
    if bs == [] then [] else Guards(bs[0]) + FlatGuards(bs[1..])
  }

  /** `b` has the shape of `q`'s `DirectBorrows`: one part per field, each conforming. */
  predicate Conforms(b: Borrows, q: Query)
    decreases q
  {
    match q
    case Component(id, access) => b == Single(Guard(id, access))
    case Struct(_, fields) => b.Tuple? && ConformsAll(b.parts, fields)
  }

  /** One part per field, each conforming to its field's query. */
  predicate ConformsAll(parts: seq<Borrows>, fields: seq<Field>)
    decreases fields
  {
    && |parts| == |fields|
    && forall i :: 0 <= i < |fields| ==> Conforms(parts[i], fields[i].query)
  }

  /** The `DirectBorrows` type of a query: the tuple of its fields' types, in order. */
  function DirectBorrows(q: Query): BorrowsType
    decreases q
  {
    match q
    case Component(id, access) => GuardType(id, access)
    case Struct(_, fields) => TupleType(seq(|fields|, i requires 0 <= i < |fields| => DirectBorrows(fields[i].query)))
  }

  /** The type of a `DirectBorrows` value. */
  function TypeOf(b: Borrows): BorrowsType
    decreases b
  {
    match b
    case Single(g) => GuardType(g.id, g.access)
    case Tuple(parts) => TupleType(seq(|parts|, i requires 0 <= i < |parts| => TypeOf(parts[i])))
  }

  /** `o` has the shape of `q`'s `Output`: a view per primitive, the struct itself per composite. */
  predicate Mirrors(o: Output, q: Query)
    decreases q
  {
    match q
    case Component(id, access) => o == View(id, access)
    case Struct(name, fields) =>
      && o.Record?
      && o.name == name
      && |o.fields| == |fields|
      && forall i :: 0 <= i < |fields| ==> o.fields[i].name == fields[i].name && Mirrors(o.fields[i].value, fields[i].query)
  }

  /* ---- Sequential acquisition: the reference definition ---- */

  /** Acquire `gs` one after another; `None` as soon as one is refused. */
  function AcquireAll(gs: seq<Guard>, c: Cells): Option<Cells>
  {
    if gs == [] then Some(c)
    else
      match Acquire(c, gs[0])
      case None => None
      case Some(c') => AcquireAll(gs[1..], c')
  }

  /** The guards that sequential acquisition of `gs` tries, up to and including the first refused one. */
  function Attempted(gs: seq<Guard>, c: Cells): seq<Guard>
  {
    if gs == [] then []
    else
      match Acquire(c, gs[0])
      case None => [gs[0]]
      case Some(c') => [gs[0]] + Attempted(gs[1..], c')
  }

  /** Per-field acquisition: each field's whole `borrow_direct` in turn, stopping at a failing field. */
  function FieldsPass(fs: seq<Field>, c: Cells): Option<Cells>
  {
    if fs == [] then Some(c)
    else
      match AcquireAll(Leaves(fs[0].query), c)
      case None => None
      case Some(c') => FieldsPass(fs[1..], c')
  }

  /** Drop guards one after another, in the order given. */
  function ReleaseEach(gs: seq<Guard>, c: Cells): Cells
  {
    if gs == [] then c else ReleaseEach(gs[1..], Release(c, gs[0]))
  }

  /* ---- Realization ---- */

  ghost predicate AllPresent(gs: seq<Guard>, c: Cells) {
    forall g :: g in gs ==> g.id in c
  }

  /**
   * `get_direct`: a primitive yields a view of its component when the entity
   * has it and `None` otherwise; a struct unwraps every field's result in
   * declaration order, so it is never `None` and panics when a field is.
   */
  function GetDirect(q: Query, c: Cells): (r: Fetched)
    ensures r.Got? <==> AllPresent(Leaves(q), c)
    ensures r.Got? ==> Mirrors(r.out, q)
    ensures q.Struct? ==> !r.Missing?
    ensures q.Component? ==> !r.Panicked?
    decreases q, 1
  {
    match q
    case Component(id, access) => if id in c then Got(View(id, access)) else Missing
    case Struct(name, fields) =>
      var outs := GetFields(fields, c);
      if outs.Some? then Got(Record(name, outs.value)) else Panicked
  }

  /** The fields' `get_direct(entity).unwrap()` results in order; `None` when one of them panics. */
  function GetFields(fs: seq<Field>, c: Cells): (r: Option<seq<OutField>>)
    ensures r.Some? <==> AllPresent(LeavesOf(fs), c)
    ensures r.Some? ==> |r.value| == |fs|
    ensures r.Some? ==> forall i :: 0 <= i < |fs| ==>
              r.value[i].name == fs[i].name && GetDirect(fs[i].query, c) == Got(r.value[i].value)
    decreases fs, 0
  {
    if fs == [] then Some([])
    else
      var head := GetDirect(fs[0].query, c);
      var tail := GetFields(fs[1..], c);
      if head.Got? && tail.Some? then Some([OutField(fs[0].name, head.out)] + tail.value) else None
  }

  /* ---- Lemmas ---- */

  /** A `DirectBorrows` value that conforms to `q` holds exactly `q`'s guards, and has `q`'s type. */
  lemma {:induction false} ConformsGuards(b: Borrows, q: Query)
    requires Conforms(b, q)
    ensures Guards(b) == Leaves(q)
    ensures TypeOf(b) == DirectBorrows(q)
    decreases q
  {
    match q
    case Component(_, _) =>
    case Struct(_, fields) =>
      var parts := b.parts;
      forall i | 0 <= i < |fields|
        ensures Guards(parts[i]) == Leaves(fields[i].query) && TypeOf(parts[i]) == DirectBorrows(fields[i].query)
      {
        ConformsGuards(parts[i], fields[i].query);
      }
      ConformsFlat(parts, fields);
      assert b == Tuple(parts);
  }

  lemma {:induction false} ConformsFlat(parts: seq<Borrows>, fields: seq<Field>)
    requires |parts| == |fields|
    requires forall i :: 0 <= i < |fields| ==> Guards(parts[i]) == Leaves(fields[i].query)
    ensures FlatGuards(parts) == LeavesOf(fields)
    decreases |parts|
  {
    if parts != [] {
      ConformsFlat(parts[1..], fields[1..]);
    }
  }

  /** Acquiring `xs + ys` is acquiring `xs`, then `ys` from where `xs` left the cells. */
  lemma {:induction false} AcquireAllAppend(xs: seq<Guard>, ys: seq<Guard>, c: Cells)
    ensures AcquireAll(xs + ys, c) == if AcquireAll(xs, c).None? then None else AcquireAll(ys, AcquireAll(xs, c).value)
  {
    if xs == [] {
      assert xs + ys == ys;
    } else {
      var zs := xs + ys;
      assert zs[0] == xs[0] && zs[1..] == xs[1..] + ys;
      var r := Acquire(c, xs[0]);
      if r.Some? {
        AcquireAllAppend(xs[1..], ys, r.value);
      }
    }
  }

  /** The guards tried for `xs + ys`: those of `xs`, then, if all of `xs` was granted, those of `ys`. */
  lemma {:induction false} AttemptedAppend(xs: seq<Guard>, ys: seq<Guard>, c: Cells)
    ensures AcquireAll(xs, c).Some? ==> Attempted(xs + ys, c) == xs + Attempted(ys, AcquireAll(xs, c).value)
    ensures AcquireAll(xs, c).None? ==> Attempted(xs + ys, c) == Attempted(xs, c)
  {
    if xs == [] {
      assert xs + ys == ys;
    } else {
      var zs := xs + ys;
      assert zs[0] == xs[0] && zs[1..] == xs[1..] + ys;
      var r := Acquire(c, xs[0]);
      if r.Some? {
        AttemptedAppend(xs[1..], ys, r.value);
        assert xs == [xs[0]] + xs[1..];
      }
    }
  }

  /**
   * Acquisition stops at the first refusal: every guard is tried when all
   * are granted; otherwise the tried guards are a prefix of `gs` whose last
   * one is refused after all the ones before it were granted.
   */
  lemma {:induction false} AttemptedStopsAtFirstRefusal(gs: seq<Guard>, c: Cells)
    ensures AcquireAll(gs, c).Some? ==> Attempted(gs, c) == gs
    ensures AcquireAll(gs, c).None? ==>
      var t := Attempted(gs, c);
      && 0 < |t| <= |gs|
      && t == gs[..|t|]
      && AcquireAll(t[..|t| - 1], c).Some?
      && Acquire(AcquireAll(t[..|t| - 1], c).value, t[|t| - 1]).None?
  {
    if gs != [] {
      match Acquire(c, gs[0])
      case None =>
        assert Attempted(gs, c)[..0] == [];
      case Some(c') =>
        AttemptedStopsAtFirstRefusal(gs[1..], c');
        if AcquireAll(gs, c).None? {
          var t' := Attempted(gs[1..], c');
          var t := Attempted(gs, c);
          assert t == [gs[0]] + t';
          assert t[..|t| - 1] == [gs[0]] + t'[..|t'| - 1];
          assert t[..|t| - 1][0] == gs[0] && t[..|t| - 1][1..] == t'[..|t'| - 1];
          assert gs[..|t|] == [gs[0]] + gs[1..][..|t'|];
        }
    }
  }

  /** Granted acquisitions on top of held guards add all of them to the held multiset. */
  lemma {:induction false} AcquireAllHolding(base: Cells, held: multiset<Guard>, gs: seq<Guard>)
    requires Holds(base, held)
    requires AcquireAll(gs, Holding(base, held)).Some?
    ensures Holds(base, held + multiset(gs))
    ensures AcquireAll(gs, Holding(base, held)).value == Holding(base, held + multiset(gs))
    decreases |gs|
  {
    if gs == [] {
      assert held + multiset(gs) == held;
    } else {
      AcquireHolding(base, held, gs[0]);
      var held' := held + multiset{gs[0]};
      AcquireAllHolding(base, held', gs[1..]);
      assert gs == [gs[0]] + gs[1..];
      assert held' + multiset(gs[1..]) == held + multiset(gs);
    }
  }

  /** Dropping held guards, in any order, removes them from the held multiset. */
  lemma {:induction false} ReleaseEachHolding(base: Cells, held: multiset<Guard>, order: seq<Guard>)
    requires Holds(base, held)
    requires multiset(order) <= held
    ensures Holds(base, held - multiset(order))
    ensures ReleaseEach(order, Holding(base, held)) == Holding(base, held - multiset(order))
    decreases |order|
  {
    if order != [] {
      var g, rest := order[0], order[1..];
      assert order == [g] + rest;
      assert multiset(order) == multiset{g} + multiset(rest);
      ReleaseHolding(base, held, g);
      var held' := held - multiset{g};
      TakeOne(held, g, multiset(rest));
      ReleaseEachHolding(base, held', rest);
      assert ReleaseEach(order, Holding(base, held)) == ReleaseEach(rest, Holding(base, held'));
    } else {
      assert held - multiset(order) == held;
    }
  }

  lemma TakeOne(held: multiset<Guard>, g: Guard, rest: multiset<Guard>)
    requires multiset{g} + rest <= held
    ensures rest <= held - multiset{g}
    ensures (held - multiset{g}) - rest == held - (multiset{g} + rest)
  {
    forall x ensures rest[x] <= (held - multiset{g})[x] {
      assert (multiset{g} + rest)[x] <= held[x];
    }
  }

  /** The cells after a granted acquisition are the starting cells with those guards held. */
  lemma HeldAfter(gs: seq<Guard>, c: Cells)
    requires Consistent(c)
    requires AcquireAll(gs, c).Some?
    ensures Holds(c, multiset(gs))
    ensures AcquireAll(gs, c).value == Holding(c, multiset(gs))
  {
    HoldingNothing(c);
    assert multiset{} + multiset(gs) == multiset(gs);
    AcquireAllHolding(c, multiset{}, gs);
  }

  /**
   * Dropping every guard that a granted sequence acquired, in any order,
   * leaves the cells exactly as they were before the acquisition.
   */
  lemma AcquireThenReleaseRestores(gs: seq<Guard>, order: seq<Guard>, c: Cells)
    requires Consistent(c)
    requires AcquireAll(gs, c).Some?
    requires multiset(order) == multiset(gs)
    ensures ReleaseEach(order, AcquireAll(gs, c).value) == c
  {
    HeldAfter(gs, c);
    ReleaseEachHolding(c, multiset(gs), order);
    assert multiset(gs) - multiset(order) == multiset{};
  }

  /** A granted acquisition keeps the entity's components and needed every requested one present. */
  lemma {:induction false} AcquireAllKeys(gs: seq<Guard>, c: Cells)
    requires AcquireAll(gs, c).Some?
    ensures AcquireAll(gs, c).value.Keys == c.Keys
    ensures AllPresent(gs, c)
    ensures Consistent(c) ==> Consistent(AcquireAll(gs, c).value)
  {
    if gs != [] {
      var c' := Acquire(c, gs[0]).value;
      AcquireAllKeys(gs[1..], c');
      assert gs == [gs[0]] + gs[1..];
    }
  }

  /**
   * Nesting: acquiring a struct's fields one whole field at a time is the same
   * as acquiring all their primitive guards in one flat sequence.
   */
  lemma {:induction false} FieldsPassIsFlat(fs: seq<Field>, c: Cells)
    ensures FieldsPass(fs, c) == AcquireAll(LeavesOf(fs), c)
  {
    if fs != [] {
      AcquireAllAppend(Leaves(fs[0].query), LeavesOf(fs[1..]), c);
      match AcquireAll(Leaves(fs[0].query), c)
      case None =>
      case Some(c') => FieldsPassIsFlat(fs[1..], c');
    }
  }

  /** Splitting off the first of the remaining parts of a tuple. */
  lemma FlatGuardsFrom(parts: seq<Borrows>, j: nat, rest: multiset<Guard>)
    requires j < |parts|
    ensures rest + multiset(FlatGuards(parts[j..]))
         == (rest + multiset(FlatGuards(parts[j + 1..]))) + multiset(Guards(parts[j]))
  {
    assert parts[j..][0] == parts[j] && parts[j..][1..] == parts[j + 1..];
  }

  /** A struct with no fields acquires nothing, always succeeds and realizes as the empty struct. */
  lemma ZeroFields(name: string, c: Cells)
    ensures AcquireAll(Leaves(Struct(name, [])), c) == Some(c)
    ensures Attempted(Leaves(Struct(name, [])), c) == []
    ensures GetDirect(Struct(name, []), c) == Got(Record(name, []))
    ensures DirectBorrows(Struct(name, [])) == TupleType([])
  {
  }

  /** After a granted `borrow_direct`, `get_direct` on the same entity realizes the whole output. */
  lemma BorrowThenGet(q: Query, c: Cells)
    requires AcquireAll(Leaves(q), c).Some?
    ensures GetDirect(q, AcquireAll(Leaves(q), c).value).Got?
    ensures Mirrors(GetDirect(q, AcquireAll(Leaves(q), c).value).out, q)
  {
    AcquireAllKeys(Leaves(q), c);
  }
}
