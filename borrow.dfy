/**
 * The per-component borrow cell that every primitive query acquires.
 *
 * An entity's cells are modelled as a map from component-type identity to the
 * cell's borrow state. A primitive query names one component type and an access
 * mode; acquiring it either moves the cell to a stronger state or fails without
 * touching anything, and dropping the guard it returned moves the cell back.
 */
module Borrow {
  import opened Wrappers

  /** Identity of a component type (Rust's `TypeId`). */
  type TypeId = nat

  /** `&T` asks for shared access, `&mut T` for exclusive access. */
  datatype Access = Shared | Exclusive

  /** Borrow state of one cell: free, read by `readers` live shared guards, or written. */
  datatype BorrowState = Free | Reading(readers: nat) | Writing

  /** A live claim on one cell. */
  datatype Guard = Guard(id: TypeId, access: Access)

  /** The borrow states of an entity's component cells. */
  type Cells = map<TypeId, BorrowState>

  /** A reading cell has at least one reader; `Reading(0)` is never a state. */
  predicate WellFormed(s: BorrowState) {
    s.Reading? ==> s.readers >= 1
  }

  predicate Consistent(c: Cells) {
    forall id :: id in c ==> WellFormed(c[id])
  }

  /** Whether a cell in state `s` grants a borrow with access `a`. */
  predicate Grants(s: BorrowState, a: Access) {
    match a
    case Shared => !s.Writing?
    case Exclusive => s.Free?
  }

  /** The state a granted guard leaves behind: one reader more, or written. */
  function Lock(s: BorrowState, a: Access): BorrowState {
    if a == Exclusive then Writing else Reading(Readers(s) + 1)
  }

  /** Non-blocking acquisition of one guard (its contract is `AcquireSpec`). */
  function Acquire(c: Cells, g: Guard): Option<Cells>
  {
    if g.id in c && Grants(c[g.id], g.access) then Some(c[g.id := Lock(c[g.id], g.access)]) else None
  }

  /**
   * Acquisition fails exactly when the component is absent or conflictingly
   * borrowed; otherwise it strengthens that one cell and leaves the others.
   */
  lemma AcquireSpec(c: Cells, g: Guard)
    ensures Acquire(c, g).Some? <==> g.id in c && Grants(c[g.id], g.access)
    ensures Acquire(c, g).Some? ==> Acquire(c, g).value.Keys == c.Keys
    ensures Acquire(c, g).Some? ==> forall id :: id in c && id != g.id ==> Acquire(c, g).value[id] == c[id]
    ensures Acquire(c, g).Some? && g.access == Exclusive ==> Acquire(c, g).value[g.id] == Writing
    ensures Acquire(c, g).Some? && g.access == Shared ==> Acquire(c, g).value[g.id] == Reading(Readers(c[g.id]) + 1)
    ensures Acquire(c, g).Some? && Consistent(c) ==> Consistent(Acquire(c, g).value)
  {
  }

  /** Number of live shared guards a state stands for. */
  function Readers(s: BorrowState): nat {
    if s.Reading? then s.readers else 0
  }

  /** The state a guard's drop leaves behind: one reader fewer, or free. */
  function Unlock(s: BorrowState, a: Access): BorrowState {
    if a == Shared && s.Reading? && s.readers > 1 then Reading(s.readers - 1) else Free
  }

  /** Dropping a guard: the cell it claims is unlocked, nothing else changes. */
  function Release(c: Cells, g: Guard): (r: Cells)
    ensures r.Keys == c.Keys
    ensures forall id :: id in c && id != g.id ==> r[id] == c[id]
  {
    if g.id in c then c[g.id := Unlock(c[g.id], g.access)] else c
  }

  /* ---- Cells with a multiset of guards held on top of a base state ---- */

  /**
   * The state of a cell that was `s` before `k` shared and `e` exclusive guards
   * were taken on it.
   */
  function Compose(s: BorrowState, k: nat, e: nat): BorrowState {
    if e > 0 then Writing else if k == 0 then s else Reading(Readers(s) + k)
  }

  /** The guards `k`, `e` could all have been granted starting from `s`. */
  predicate Admissible(s: BorrowState, k: nat, e: nat) {
    && WellFormed(s)
    && (e > 0 ==> e == 1 && k == 0 && s == Free)
    && (s == Writing ==> k == 0)
  }

  /** The multiset `held` of guards could all be live on top of `base`. */
  ghost predicate Holds(base: Cells, held: multiset<Guard>) {
    && (forall g :: g in held ==> g.id in base)
    && (forall id :: id in base ==> AdmissibleAt(base, held, id))
  }

  /** The borrow states of `base` once every guard of `held` is live. */
  function Holding(base: Cells, held: multiset<Guard>): (r: Cells)
    ensures r.Keys == base.Keys
  {
    map id | id in base :: CellAt(base, held, id)
  }

  /** Holding no guard is the base state itself. */
  lemma HoldingNothing(base: Cells)
    requires Consistent(base)
    ensures Holds(base, multiset{})
    ensures Holding(base, multiset{}) == base
  {
  }

  /** Held guards only ever produce well-formed states. */
  lemma HoldingConsistent(base: Cells, held: multiset<Guard>)
    requires Holds(base, held)
    ensures Consistent(Holding(base, held))
  {
    forall id | id in base
      ensures WellFormed(Holding(base, held)[id])
    {
      assert AdmissibleAt(base, held, id);
    }
  }

  /** Granting one more guard on a cell is counting it among the held ones. */
  lemma AcquireCell(s: BorrowState, k: nat, e: nat, a: Access)
    requires Admissible(s, k, e) && Grants(Compose(s, k, e), a)
    ensures a == Shared ==> Admissible(s, k + 1, e) && Compose(s, k + 1, e) == Reading(Readers(Compose(s, k, e)) + 1)
    ensures a == Exclusive ==> Admissible(s, k, e + 1) && Compose(s, k, e + 1) == Writing
  {
  }

  /** Dropping one held guard on a cell is no longer counting it. */
  lemma ReleaseCell(s: BorrowState, k: nat, e: nat, a: Access)
    requires Admissible(s, k, e)
    requires a == Shared ==> k > 0
    requires a == Exclusive ==> e > 0
    ensures a == Shared ==> Admissible(s, k - 1, e) && Unlock(Compose(s, k, e), a) == Compose(s, k - 1, e)
    ensures a == Exclusive ==> Admissible(s, k, e - 1) && Unlock(Compose(s, k, e), a) == Compose(s, k, e - 1)
  {
  }

  /** The state of cell `id` of `base` with the guards of `held` live. */
  function CellAt(base: Cells, held: multiset<Guard>, id: TypeId): BorrowState
    requires id in base
  {
    Compose(base[id], held[Guard(id, Shared)], held[Guard(id, Exclusive)])
  }

  predicate AdmissibleAt(base: Cells, held: multiset<Guard>, id: TypeId)
    requires id in base
  {
    Admissible(base[id], held[Guard(id, Shared)], held[Guard(id, Exclusive)])
  }

  /** Cell by cell, granting `g` on top of `held` is holding `held + {g}`. */
  lemma AcquireAt(base: Cells, held: multiset<Guard>, g: Guard, id: TypeId)
    requires id in base && AdmissibleAt(base, held, id)
    requires id == g.id ==> Grants(CellAt(base, held, id), g.access)
    ensures AdmissibleAt(base, held + multiset{g}, id)
    ensures CellAt(base, held + multiset{g}, id)
         == if id == g.id then Lock(CellAt(base, held, id), g.access) else CellAt(base, held, id)
  {
    var after := held + multiset{g};
    if id == g.id {
      AcquireCell(base[id], held[Guard(id, Shared)], held[Guard(id, Exclusive)], g.access);
    } else {
      assert after[Guard(id, Shared)] == held[Guard(id, Shared)];
      assert after[Guard(id, Exclusive)] == held[Guard(id, Exclusive)];
    }
  }

  /** Cell by cell, dropping held guard `g` is holding `held - {g}`. */
  lemma ReleaseAt(base: Cells, held: multiset<Guard>, g: Guard, id: TypeId)
    requires id in base && AdmissibleAt(base, held, id) && g in held
    ensures AdmissibleAt(base, held - multiset{g}, id)
    ensures CellAt(base, held - multiset{g}, id)
         == if id == g.id then Unlock(CellAt(base, held, id), g.access) else CellAt(base, held, id)
  {
    var after := held - multiset{g};
    if id == g.id {
      ReleaseCell(base[id], held[Guard(id, Shared)], held[Guard(id, Exclusive)], g.access);
    } else {
      assert after[Guard(id, Shared)] == held[Guard(id, Shared)];
      assert after[Guard(id, Exclusive)] == held[Guard(id, Exclusive)];
    }
  }

  /** A granted acquisition adds its guard to the held multiset. */
  lemma AcquireHolding(base: Cells, held: multiset<Guard>, g: Guard)
    requires Holds(base, held)
    requires Acquire(Holding(base, held), g).Some?
    ensures Holds(base, held + multiset{g})
    ensures Acquire(Holding(base, held), g).value == Holding(base, held + multiset{g})
  {
    var now := Holding(base, held);
    var after := held + multiset{g};
    var next := Acquire(now, g).value;
    assert next == now[g.id := Lock(now[g.id], g.access)];
    forall id | id in base
      ensures AdmissibleAt(base, after, id) && next[id] == CellAt(base, after, id)
    {
      assert AdmissibleAt(base, held, id);
      AcquireAt(base, held, g, id);
    }
    assert forall h :: h in after ==> h in held || h == g;
  }

  /** Dropping a held guard removes it from the held multiset. */
  lemma ReleaseHolding(base: Cells, held: multiset<Guard>, g: Guard)
    requires Holds(base, held) && g in held
    ensures Holds(base, held - multiset{g})
    ensures Release(Holding(base, held), g) == Holding(base, held - multiset{g})
  {
    var now := Holding(base, held);
    var after := held - multiset{g};
    var next := Release(now, g);
    assert next == now[g.id := Unlock(now[g.id], g.access)];
    forall id | id in base
      ensures AdmissibleAt(base, after, id) && next[id] == CellAt(base, after, id)
    {
      assert AdmissibleAt(base, held, id);
      ReleaseAt(base, held, g, id);
    }
  }
}
