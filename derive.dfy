/**
 * `#[derive(Query)]`: what the macro makes of the item it is applied to.
 *
 * The input is the parsed item: its name, its generic parameters and its body.
 * A field's type is represented by the query that type implements. The macro
 * either expands to an implementation of `Query` for the item, or panics: when
 * the item has no generic parameter to use as the query lifetime, when it is
 * not a struct, or when one of its fields has no name. The checks happen in
 * that order, so the first one that fails decides the panic.
 */
module Derive {
  import opened Wrappers
  import opened Queries

  /** A field of the item: its name (absent in a tuple struct) and its type. */
  datatype FieldDecl = FieldDecl(ident: Option<string>, ty: Query)

  /** The item's body; unit, tuple and named-field structs all carry a field list. */
  datatype Data = StructData(fields: seq<FieldDecl>) | EnumData | UnionData

  /** The parsed item: name, generic parameter names in order, body. */
  datatype DeriveInput = DeriveInput(ident: string, generics: seq<string>, data: Data)

  /**
   * The generated `impl Query<'lifetime> for Ident`: the query it describes
   * (whose realized output is the item itself) and its `DirectBorrows` type.
   */
  datatype QueryImpl = QueryImpl(selfType: string, lifetime: string, query: Query, directBorrows: BorrowsType)

  datatype Failure = NoLifetimeParam | Unimplemented | UnnamedField

  /** The macro's outcome: the expansion, or the panic that aborts it. */
  datatype Expansion = Impl(impl: QueryImpl) | Panic(reason: Failure)

  /** Every field's name, unwrapped in declaration order; `None` when one is unnamed. */
  function FieldNames(fs: seq<FieldDecl>): (r: Option<seq<string>>)
    ensures r.Some? <==> forall i :: 0 <= i < |fs| ==> fs[i].ident.Some?
    ensures r.Some? ==> |r.value| == |fs|
    ensures r.Some? ==> forall i :: 0 <= i < |fs| ==> r.value[i] == fs[i].ident.value
  {
    if fs == [] then Some([])
    else if fs[0].ident.None? then None
    else
      match FieldNames(fs[1..])
      case None => None
      case Some(rest) => Some([fs[0].ident.value] + rest)
  }

  /** All fields are named. */
  predicate Named(fs: seq<FieldDecl>) {
    forall i :: 0 <= i < |fs| ==> fs[i].ident.Some?
  }

  /**
   * The macro. On success the implementation is for the item itself, its
   * lifetime is the first generic parameter, its query has one field per
   * declared field with that field's name and type in declaration order, and
   * its `DirectBorrows` is the tuple of the fields' `DirectBorrows`.
   */
  function Expand(input: DeriveInput): (r: Expansion)
    ensures r == Panic(NoLifetimeParam) <==> |input.generics| == 0
    ensures r == Panic(Unimplemented) <==> |input.generics| > 0 && !input.data.StructData?
    ensures r == Panic(UnnamedField) <==>
              |input.generics| > 0 && input.data.StructData? && !Named(input.data.fields)
    ensures r.Impl? <==> |input.generics| > 0 && input.data.StructData? && Named(input.data.fields)
    ensures r.Impl? ==>
              && r.impl.selfType == input.ident
              && r.impl.lifetime == input.generics[0]
              && r.impl.query.Struct?
              && r.impl.query.name == input.ident
              && |r.impl.query.fields| == |input.data.fields|
              && forall i :: 0 <= i < |input.data.fields| ==>
                   r.impl.query.fields[i] == Field(input.data.fields[i].ident.value, input.data.fields[i].ty)
    ensures r.Impl? ==>
              && r.impl.directBorrows.TupleType?
              && |r.impl.directBorrows.elems| == |input.data.fields|
              && forall i :: 0 <= i < |input.data.fields| ==>
                   r.impl.directBorrows.elems[i] == DirectBorrows(input.data.fields[i].ty)
  {
    if |input.generics| == 0 then Panic(NoLifetimeParam)
    else
      match input.data
      case StructData(fields) =>
        var names := FieldNames(fields);
        if names.None? then Panic(UnnamedField)
        else
          var query := Struct(input.ident, seq(|fields|, i requires 0 <= i < |fields| => Field(names.value[i], fields[i].ty)));
          var borrows := TupleType(seq(|fields|, i requires 0 <= i < |fields| => DirectBorrows(fields[i].ty)));
          Impl(QueryImpl(input.ident, input.generics[0], query, borrows))
      case _ => Panic(Unimplemented)
  }

  /**
   * The generated `DirectBorrows` type is the one the query protocol assigns
   * to the generated query, so nested derived structs compose: a field whose
   * type is itself derived contributes its own tuple.
   */
  lemma ExpandedBorrowsType(input: DeriveInput)
    requires Expand(input).Impl?
    ensures Expand(input).impl.directBorrows == DirectBorrows(Expand(input).impl.query)
  {
    var impl := Expand(input).impl;
    assert impl.directBorrows.elems == DirectBorrows(impl.query).elems;
  }

  /** The primitive guards of the declared field types, fields in declaration order. */
  function DeclaredLeaves(fs: seq<FieldDecl>): seq<Borrow.Guard> {
    if fs == [] then [] else Leaves(fs[0].ty) + DeclaredLeaves(fs[1..])
  }

  lemma {:induction false} SameTypesSameLeaves(fields: seq<Field>, decls: seq<FieldDecl>)
    requires |fields| == |decls|
    requires forall i :: 0 <= i < |decls| ==> fields[i].query == decls[i].ty
    ensures LeavesOf(fields) == DeclaredLeaves(decls)
    decreases |decls|
  {
    if decls != [] {
      SameTypesSameLeaves(fields[1..], decls[1..]);
    }
  }

  /**
   * The generated `borrow_direct` asks for the declared fields' guards in
   * declaration order, and a successful `get_direct` yields the item itself:
   * a record named after it, with the declared field names in order.
   */
  lemma ExpandedQuery(input: DeriveInput, c: Borrow.Cells)
    requires Expand(input).Impl?
    ensures Leaves(Expand(input).impl.query) == DeclaredLeaves(input.data.fields)
    ensures GetDirect(Expand(input).impl.query, c).Got? ==>
              var out := GetDirect(Expand(input).impl.query, c).out;
              && out.Record?
              && out.name == input.ident
              && |out.fields| == |input.data.fields|
              && forall i :: 0 <= i < |input.data.fields| ==> out.fields[i].name == input.data.fields[i].ident.value
  {
    var q := Expand(input).impl.query;
    SameTypesSameLeaves(q.fields, input.data.fields);
  }

  /** A struct without fields derives an implementation whose `DirectBorrows` is `()`. */
  lemma ExpandNoFields(ident: string, lifetime: string, rest: seq<string>)
    ensures Expand(DeriveInput(ident, [lifetime] + rest, StructData([])))
         == Impl(QueryImpl(ident, lifetime, Struct(ident, []), TupleType([])))
  {
    var r := Expand(DeriveInput(ident, [lifetime] + rest, StructData([])));
    assert r.impl.query.fields == [];
  }
}
