/**
 * An entity's component cells and the generated `borrow_direct` running
 * against them.
 *
 * The cells change state in place as guards are acquired and dropped, so the
 * entity is a class. `BorrowDirect` is the code the derive macro emits for a
 * struct: one `let field = <Field as Query>::borrow_direct(entity)?;` per field
 * in declaration order, then the tuple of the results. On a `?` early return the
 * bindings made so far go out of scope and drop, which releases their guards.
 */
module Entities {
  import opened Wrappers
  import opened Borrow
  import opened Queries

  class Entity {
    /** Borrow state of each component cell the entity has. */
    var cells: Cells
    /** Every primitive acquisition tried on this entity, oldest first. */
    ghost var attempts: seq<Guard>

    ghost predicate Valid()
      reads this
    {
      Consistent(cells)
    }

    /** An entity holding the given components, none of them borrowed. */
    constructor (components: set<TypeId>)
      ensures Valid()
      ensures cells == map id | id in components :: Free
      ensures attempts == []
    {
      cells := map id | id in components :: Free;
      attempts := [];
    }

    /** Primitive `borrow_direct`: try to take one guard without blocking. */
    method TryBorrow(g: Guard) returns (b: Option<Borrows>)
      requires Valid()
      modifies this
      ensures Valid()
      ensures b.Some? <==> Acquire(old(cells), g).Some?
      ensures b.Some? ==> b.value == Single(g) && cells == Acquire(old(cells), g).value
      ensures b.None? ==> cells == old(cells)
      ensures attempts == old(attempts) + [g]
    {
      attempts := attempts + [g];
      var r := Acquire(cells, g);
      if r.Some? {
        cells := r.value;
        b := Some(Single(g));
      } else {
        b := None;
      }
    }

    /** Dropping one guard. */
    method Unborrow(g: Guard)
      modifies this
      ensures cells == Release(old(cells), g)
      ensures attempts == old(attempts)
    {
      cells := Release(cells, g);
    }

    /**
     * Dropping a `DirectBorrows` value: a guard releases its cell, a tuple drops
     * its elements first to last. `base` and `rest` describe the cells as the
     * base state plus every guard still held.
     */
    method Drop(b: Borrows, ghost base: Cells, ghost rest: multiset<Guard>)
      requires Holds(base, rest + multiset(Guards(b)))
      requires cells == Holding(base, rest + multiset(Guards(b)))
      modifies this
      ensures Holds(base, rest) && cells == Holding(base, rest)
      ensures attempts == old(attempts)
      decreases b
    {
      match b
      case Single(g) =>
        assert multiset(Guards(b)) == multiset{g};
        ReleaseHolding(base, rest + multiset{g}, g);
        assert rest + multiset{g} - multiset{g} == rest;
        Unborrow(g);
      case Tuple(parts) =>
        var j := 0;
        while j < |parts|
          invariant 0 <= j <= |parts|
          invariant Holds(base, rest + multiset(FlatGuards(parts[j..])))
          invariant cells == Holding(base, rest + multiset(FlatGuards(parts[j..])))
          invariant attempts == old(attempts)
        {
          FlatGuardsFrom(parts, j, rest);
          Drop(parts[j], base, rest + multiset(FlatGuards(parts[j + 1..])));
          j := j + 1;
        }
        assert parts[|parts|..] == [];
        assert rest + multiset(FlatGuards([])) == rest;
    }

    /**
     * A binding going out of scope on the early return of `?`: dropping it
     * undoes exactly the acquisitions that produced it.
     */
    method DropBinding(b: Borrows, ghost base: Cells)
      requires Consistent(base)
      requires AcquireAll(Guards(b), base) == Some(cells)
      modifies this
      ensures cells == base
      ensures attempts == old(attempts)
    {
      HeldAfter(Guards(b), base);
      assert multiset{} + multiset(Guards(b)) == multiset(Guards(b));
      Drop(b, base, multiset{});
      HoldingNothing(base);
    }

    /**
     * The derived `borrow_direct`, for a primitive or a (possibly nested)
     * struct query. It succeeds exactly when every primitive guard of `q`,
     * taken in declaration order, is granted, and then returns borrows shaped
     * like `q`. It tries guards only up to the first refusal, and a failure
     * leaves every cell exactly as it found it.
     */
    method BorrowDirect(q: Query) returns (b: Option<Borrows>)
      requires Valid()
      modifies this
      ensures Valid()
      ensures b.Some? <==> AcquireAll(Leaves(q), old(cells)).Some?
      ensures b.Some? ==> cells == AcquireAll(Leaves(q), old(cells)).value
      ensures b.Some? ==> Conforms(b.value, q) && Guards(b.value) == Leaves(q)
      ensures b.None? ==> cells == old(cells)
      ensures attempts == old(attempts) + Attempted(Leaves(q), old(cells))
      decreases q, 2
    {
      match q
      case Component(id, access) =>
        b := TryBorrow(Guard(id, access));
      case Struct(_, fields) =>
        var got := BorrowFields(fields);
        if got.Some? {
          b := Some(Tuple(got.value));
          ConformsGuards(b.value, q);
        } else {
          b := None;
        }
    }

    /**
     * The body the macro emits for a struct's fields: one binding
     * `let field = <Field as Query>::borrow_direct(entity)?;` per field in
     * declaration order, then the tuple of the bindings. The bindings after the
     * first are written as the same body over the remaining fields, so when a
     * later field is refused the later bindings have already dropped and the
     * first one drops last, as locals drop in reverse order.
     */
    method BorrowFields(fields: seq<Field>) returns (got: Option<seq<Borrows>>)
      requires Valid()
      modifies this
      ensures Valid()
      ensures got.Some? <==> AcquireAll(LeavesOf(fields), old(cells)).Some?
      ensures got.Some? ==> cells == AcquireAll(LeavesOf(fields), old(cells)).value
      ensures got.Some? ==> ConformsAll(got.value, fields)
      ensures got.None? ==> cells == old(cells)
      ensures attempts == old(attempts) + Attempted(LeavesOf(fields), old(cells))
      decreases fields, 1
    {
      if fields == [] {
        return Some([]);
      }
      ghost var head, tail := Leaves(fields[0].query), LeavesOf(fields[1..]);
      AcquireAllAppend(head, tail, cells);
      AttemptedAppend(head, tail, cells);
      var first := BorrowDirect(fields[0].query);
      if first.None? {
        return None;
      }
      AttemptedStopsAtFirstRefusal(head, old(cells));
      got := BindRest(fields, first.value, old(cells), old(attempts));
    }

    /**
     * The bindings after the first one, made while the first is held. When one
     * of them is refused, the first binding drops after them.
     */
    method BindRest(fields: seq<Field>, first: Borrows, ghost base: Cells, ghost log: seq<Guard>)
        returns (got: Option<seq<Borrows>>)
      requires fields != [] && Valid() && Consistent(base)
      requires Conforms(first, fields[0].query) && Guards(first) == Leaves(fields[0].query)
      requires AcquireAll(Leaves(fields[0].query), base) == Some(cells)
      requires attempts == log + Leaves(fields[0].query)
      modifies this
      ensures Valid()
      ensures got.Some? <==> AcquireAll(LeavesOf(fields[1..]), old(cells)).Some?
      ensures got.Some? ==> cells == AcquireAll(LeavesOf(fields[1..]), old(cells)).value
      ensures got.Some? ==> ConformsAll(got.value, fields)
      ensures got.None? ==> cells == base
      ensures attempts == log + Leaves(fields[0].query) + Attempted(LeavesOf(fields[1..]), old(cells))
      decreases fields, 0
    {
      var rest := BorrowFields(fields[1..]);
      if rest.None? {
        DropBinding(first, base);
        return None;
      }
      got := Some([first] + rest.value);
      forall j | 0 <= j < |fields|
        ensures Conforms(got.value[j], fields[j].query)
      {
        if j > 0 {
          assert got.value[j] == rest.value[j - 1] && fields[j] == fields[1..][j - 1];
        }
      }
    }
  }
}
