/** `ProductRepository`: queries and commands over the products table. The pure
    functions say what each operation means; the class holds the table and the id
    sequence and updates them in place. */
module Repositories {
  import opened Wrappers
  import opened Models
  import opened Data

  /** `pat` occurs in `s` starting at position `i`. */
  predicate OccursAt(s: string, pat: string, i: nat) {
    i + |pat| <= |s| && s[i..i + |pat|] == pat
  }

  /** Ordinal, case-sensitive `string.Contains`: a left-to-right scan. */
  function Contains(s: string, pat: string): (b: bool)
    ensures b <==> exists i: nat :: i <= |s| && OccursAt(s, pat, i)
    decreases |s|
  {
    if |pat| > |s| then false
    else if s[..|pat|] == pat then assert OccursAt(s, pat, 0); true
    else
      assert |s| > 0;
      var b := Contains(s[1..], pat);
      assert forall i: nat :: 1 <= i <= |s| && OccursAt(s, pat, i) ==> OccursAt(s[1..], pat, i - 1);
      assert forall j: nat :: OccursAt(s[1..], pat, j) ==> OccursAt(s, pat, j + 1);
      assert !OccursAt(s, pat, 0);
      b
  }

  /** The name filter: none given, or the name contains it. */
  predicate NameMatches(name: string, nameFilter: Option<string>) {
    nameFilter.None? || Contains(name, nameFilter.value)
  }

  /** What the stock filter selects: with no bound every row, with both bounds the
      rows in the closed range, with exactly one bound no row at all. */
  predicate InStockWindow(stock: int, minStock: Option<int32>, maxStock: Option<int32>) {
    match (minStock, maxStock)
    case (None, None) => true
    case (Some(lo), Some(hi)) => lo <= stock <= hi
    case _ => false
  }

  /** The products `GetProducts` returns for the given filters. */
  function Select(t: Table, nameFilter: Option<string>, minStock: Option<int32>, maxStock: Option<int32>): (r: set<Product>)
    ensures r <= RowsOf(t)
    ensures minStock.Some? != maxStock.Some? ==> r == {}
  {
    set p | p in RowsOf(t) && NameMatches(p.name, nameFilter) && InStockWindow(p.stock, minStock, maxStock)
  }

  /** Without filters the query returns every stored product, one per key. */
  lemma SelectAll(t: Table)
    ensures Select(t, None, None, None) == RowsOf(t)
    ensures |Select(t, None, None, None)| == |t|
  {
    RowsOfCount(t);
  }

  /** The name filter and the stock filter combine conjunctively. */
  lemma SelectConjunctive(t: Table, nameFilter: Option<string>, minStock: Option<int32>, maxStock: Option<int32>)
    ensures Select(t, nameFilter, minStock, maxStock)
         == Select(t, nameFilter, None, None) * Select(t, None, minStock, maxStock)
  {
  }

  /** C#'s lifted `int?` comparisons: a comparison with null is false. */
  predicate LiftedGe(x: int, bound: Option<int32>) {
    bound.Some? && x >= bound.value
  }

  predicate LiftedLe(x: int, bound: Option<int32>) {
    bound.Some? && x <= bound.value
  }

  /** `FirstOrDefault(x => x.Id == id)`. */
  function Find(t: Table, id: int32): (r: Option<Product>)
    ensures r.Some? <==> id in t
    ensures r.Some? ==> r.value.id == id && r.value in RowsOf(t)
  {
    if id in t then Some(ProductAt(t, id)) else None
  }

  /** The table after `UpdateProduct(p)`. */
  function Updated(t: Table, p: Product): (r: Table)
    ensures p.id !in t ==> r == t
    ensures r.Keys == t.Keys
    ensures p.id in t ==> Find(r, p.id) == Some(p)
    ensures forall id :: id in t && id != p.id ==> r[id] == t[id]
  {
    if p.id in t then t[p.id := RowOf(p)] else t
  }

  /** The table after `DeleteProduct(id)`. */
  function Deleted(t: Table, id: int32): (r: Table)
    ensures Find(r, id) == None
    ensures r.Keys == t.Keys - {id}
    ensures forall k :: k in r ==> r[k] == t[k]
    ensures id in t ==> |r| == |t| - 1
  {
    t - {id}
  }

  /** What `AddProduct` does to the store. */
  datatype Insertion = Insertion(result: Result<Product, StoreError>, table: Table, next: int)

  /** `AddAsync` + `SaveChangesAsync`: a product whose id is the default 0 gets the
      sequence's next value (the value is drawn even if the insert then fails); any
      other id is inserted as given. */
  function Inserted(t: Table, next: int, product: Option<Product>): (r: Insertion)
    requires SequenceValid(next)
    ensures SequenceValid(r.next)
    ensures r.result.Failure? ==> r.table == t
    ensures r.result.Success? ==> var p := r.result.value;
      && p.id !in t && r.table == t[p.id := RowOf(p)] && |r.table| == |t| + 1
      && Find(r.table, p.id) == Some(p)
    ensures product.None? <==> r.result == Failure(ArgumentNull)
    ensures product.None? || (product.value.id == 0 && next > SequenceMax) ==> r.next == next
    ensures product.Some? && product.value.id != 0 ==>
      && r.next == next
      && (r.result.Success? <==> product.value.id !in t)
      && (r.result.Success? ==> r.result.value == product.value)
      && (r.result.Failure? ==> r.result.error == DuplicateKey)
    ensures product.Some? && product.value.id == 0 ==>
      && (r.result == Failure(SequenceExhausted) <==> next > SequenceMax)
      && (next <= SequenceMax ==> r.next == next + SequenceIncrement)
      && (next <= SequenceMax ==> (r.result.Success? <==> next !in t))
      && (r.result.Success? ==> r.result.value == product.value.(id := next as int32))
    ensures product.Some? && product.value.id == 0 && KeysBelowSequence(t, next) ==>
      && KeysBelowSequence(r.table, r.next)
      && (r.result.Failure? ==> r.result.error == SequenceExhausted)
  {
    if product.None? then Insertion(Failure(ArgumentNull), t, next)
    else
      var p := product.value;
      if p.id == 0 then
        match DrawId(next)
        case Failure(e) => Insertion(Failure(e), t, next)
        case Success((id, next')) =>
          if id in t then Insertion(Failure(DuplicateKey), t, next')
          else Insertion(Success(p.(id := id)), t[id := RowOf(p)], next')
      else if p.id in t then Insertion(Failure(DuplicateKey), t, next)
      else Insertion(Success(p), t[p.id := RowOf(p)], next)
  }

  /** The repository over the store's products table and id sequence. */
  class ProductRepository {
    var table: Table
    var sequenceNext: int

    ghost predicate Valid()
      reads this
    {
      SequenceValid(sequenceNext)
    }

    /** A store freshly created from the migration: the seed rows and the sequence at its start. */
    constructor ()
      ensures Valid()
      ensures table == SeedTable() && sequenceNext == SequenceStart
    {
      table := SeedTable();
      sequenceNext := SequenceStart;
    }

    /** The list query, with its `Where` filters applied one after the other. */
    method GetProducts(nameFilter: Option<string>, minStock: Option<int32>, maxStock: Option<int32>)
      returns (r: set<Product>)
      ensures r == Select(table, nameFilter, minStock, maxStock)
    {
      var products := RowsOf(table);
      if nameFilter.Some? {
        products := set p | p in products && Contains(p.name, nameFilter.value);
      }
      if minStock.Some? || maxStock.Some? {
        products := set p | p in products && LiftedGe(p.stock, minStock) && LiftedLe(p.stock, maxStock);
      }
      r := products;
    }

    method GetProduct(id: int32) returns (r: Option<Product>)
      ensures r == Find(table, id)
      ensures r.Some? <==> id in table
    {
      if id in table {
        r := Some(ProductAt(table, id));
      } else {
        r := None;
      }
    }

    method AddProduct(product: Option<Product>) returns (r: Result<Product, StoreError>)
      requires Valid()
      modifies this
      ensures Valid()
      ensures Insertion(r, table, sequenceNext) == Inserted(old(table), old(sequenceNext), product)
    {
      if product.None? {
        return Failure(ArgumentNull);
      }
      var p := product.value;
      if p.id == 0 {
        if sequenceNext > SequenceMax {
          return Failure(SequenceExhausted);
        }
        p := p.(id := sequenceNext as int32);
        sequenceNext := sequenceNext + SequenceIncrement;
      }
      if p.id in table {
        return Failure(DuplicateKey);
      }
      table := table[p.id := RowOf(p)];
      r := Success(p);
    }

    /** Overwrites name and stock of the row with the product's id, keeping the id. */
    method UpdateProduct(product: Product) returns (r: Option<Product>)
      requires Valid()
      modifies this
      ensures Valid()
      ensures table == Updated(old(table), product) && sequenceNext == old(sequenceNext)
      ensures r.None? <==> product.id !in old(table)
      ensures r.Some? ==> r.value == product && Find(table, product.id) == r
    {
      if product.id !in table {
        return None;
      }
      var existing := ProductAt(table, product.id);
      existing := existing.(name := product.name, stock := product.stock);
      table := table[existing.id := RowOf(existing)];
      r := Some(existing);
    }

    /** Removes the row and returns it as it was before. */
    method DeleteProduct(id: int32) returns (r: Option<Product>)
      requires Valid()
      modifies this
      ensures Valid()
      ensures table == Deleted(old(table), id) && sequenceNext == old(sequenceNext)
      ensures r == Find(old(table), id)
    {
      if id !in table {
        return None;
      }
      r := Some(ProductAt(table, id));
      table := table - {id};
    }
  }
}
