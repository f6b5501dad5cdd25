/** `ProductService`: delegates to the repository, copies fields between `Product`
    and `ProductDto`, and composes the two stock adjustments from a get and an update. */
module Services {
  import opened Wrappers
  import opened Models
  import opened Data
  import opened Repositories

  /** The DTOs of a set of products, field for field. */
  function DtosOf(ps: set<Product>): (r: set<ProductDto>)
    ensures forall p :: p in ps <==> ToDto(p) in r
    ensures forall d :: d in r ==> FromDto(d) in ps
    ensures |r| == |ps|
  {
    DtosCount(ps);
    set p | p in ps :: ToDto(p)
  }

  lemma {:induction false} DtosCount(ps: set<Product>)
    ensures |set p | p in ps :: ToDto(p)| == |ps|
    decreases |ps|
  {
    if ps != {} {
      var p :| p in ps;
      var rest := ps - {p};
      DtosCount(rest);
      assert (set q | q in ps :: ToDto(q)) == (set q | q in rest :: ToDto(q)) + {ToDto(p)};
      assert ToDto(p) !in (set q | q in rest :: ToDto(q));
    }
  }

  /** The table after the stock of product `id` is moved by `delta` with C#'s
      wrapping `int` arithmetic; an absent id leaves the table as it was. */
  function Restocked(t: Table, id: int32, delta: int): (r: Table)
    ensures r.Keys == t.Keys
    ensures forall k :: k in t && k != id ==> r[k] == t[k]
    ensures id in t ==> r[id].name == t[id].name && (t[id].stock + delta - r[id].stock) % 0x1_0000_0000 == 0
    ensures id in t && MinInt32 <= t[id].stock + delta <= MaxInt32 ==> r[id].stock == t[id].stock + delta
    ensures id !in t ==> r == t
  {
    if id in t then t[id := Row(t[id].name, Wrap32(t[id].stock + delta))] else t
  }

  /** Wrapping is undone by wrapping back: a decrease by what was added restores the table,
      overflow or not. */
  lemma RestockedInverse(t: Table, id: int32, quantity: int32)
    ensures Restocked(Restocked(t, id, quantity), id, -(quantity as int)) == t
  {
  }

  /** Decreasing has no lower bound: stock 10 decreased by 20 is -10. */
  lemma DecreaseBelowZero(t: Table, id: int32)
    requires id in t && t[id].stock == 10
    ensures Restocked(t, id, -20)[id].stock == -10
  {
  }

  class ProductService {
    const repository: ProductRepository

    constructor (repository: ProductRepository)
      ensures this.repository == repository
    {
      this.repository := repository;
    }

    /** Maps the request to a product with the default id, inserts it, and maps the stored row back. */
    method AddProduct(product: AddProductRequestDto) returns (r: Result<ProductDto, StoreError>)
      requires repository.Valid()
      modifies repository
      ensures repository.Valid()
      ensures var ins := Inserted(old(repository.table), old(repository.sequenceNext), Some(FromRequest(product)));
        && repository.table == ins.table && repository.sequenceNext == ins.next
        && (r.Success? <==> ins.result.Success?)
        && (r.Success? ==> r.value == ToDto(ins.result.value))
        && (r.Failure? ==> r.error == ins.result.error)
      ensures r.Success? ==> r.value == ProductDto(old(repository.sequenceNext) as int32, product.name, product.stock)
      ensures old(KeysBelowSequence(repository.table, repository.sequenceNext)) ==>
        && KeysBelowSequence(repository.table, repository.sequenceNext)
        && (r.Failure? <==> old(repository.sequenceNext) > SequenceMax)
    {
      var added := repository.AddProduct(Some(FromRequest(product)));
      match added
      case Success(p) => r := Success(ToDto(p));
      case Failure(e) => r := Failure(e);
    }

    /** Get, add `quantity` to the stock, update; null if the product is absent. */
    method AddStock(id: int32, quantity: int32) returns (r: Option<ProductDto>)
      requires repository.Valid()
      modifies repository
      ensures repository.Valid()
      ensures repository.table == Restocked(old(repository.table), id, quantity)
      ensures repository.sequenceNext == old(repository.sequenceNext)
      ensures r.None? <==> id !in old(repository.table)
      ensures r.Some? ==> r.value == ToDto(ProductAt(repository.table, id))
    {
      var product := repository.GetProduct(id);
      if product.None? {
        return None;
      }
      var p := product.value;
      p := p.(stock := Wrap32(p.stock + quantity));
      var updated := repository.UpdateProduct(p);
      r := if updated.Some? then Some(ToDto(updated.value)) else None;
    }

    /** Get, subtract `quantity` from the stock (no lower bound), update; null if the product is absent. */
    method DecreaseStock(id: int32, quantity: int32) returns (r: Option<ProductDto>)
      requires repository.Valid()
      modifies repository
      ensures repository.Valid()
      ensures repository.table == Restocked(old(repository.table), id, -(quantity as int))
      ensures repository.sequenceNext == old(repository.sequenceNext)
      ensures r.None? <==> id !in old(repository.table)
      ensures r.Some? ==> r.value == ToDto(ProductAt(repository.table, id))
    {
      var product := repository.GetProduct(id);
      if product.None? {
        return None;
      }
      var p := product.value;
      p := p.(stock := Wrap32(p.stock - quantity));
      var updated := repository.UpdateProduct(p);
      r := if updated.Some? then Some(ToDto(updated.value)) else None;
    }

    /** Passes the repository's result through, as a `Product`. */
    method DeleteProduct(id: int32) returns (r: Option<Product>)
      requires repository.Valid()
      modifies repository
      ensures repository.Valid()
      ensures repository.table == Deleted(old(repository.table), id)
      ensures repository.sequenceNext == old(repository.sequenceNext)
      ensures r == Find(old(repository.table), id)
    {
      r := repository.DeleteProduct(id);
    }

    method GetProduct(id: int32) returns (r: Option<ProductDto>)
      ensures r.None? <==> id !in repository.table
      ensures r.Some? ==> FromDto(r.value) == ProductAt(repository.table, id)
    {
      var product := repository.GetProduct(id);
      if product.None? {
        return None;
      }
      r := Some(ToDto(product.value));
    }

    method GetProducts() returns (r: set<ProductDto>)
      ensures r == DtosOf(RowsOf(repository.table))
      ensures |r| == |repository.table|
    {
      var products := repository.GetProducts(None, None, None);
      SelectAll(repository.table);
      r := DtosOf(products);
    }

    /** Passes only the name filter to the repository. */
    method GetProductsByName(filteredByName: string) returns (r: set<ProductDto>)
      ensures r == DtosOf(Select(repository.table, Some(filteredByName), None, None))
      ensures forall p :: p in RowsOf(repository.table) && Contains(p.name, filteredByName) <==> ToDto(p) in r
      ensures forall d :: d in r ==> FromDto(d) in RowsOf(repository.table)
    {
      var products := repository.GetProducts(Some(filteredByName), None, None);
      r := DtosOf(products);
    }

    /** Passes only the two stock bounds to the repository. */
    method GetProductsByStockLevel(minStock: int32, maxStock: int32) returns (r: set<ProductDto>)
      ensures r == DtosOf(Select(repository.table, None, Some(minStock), Some(maxStock)))
      ensures forall p :: p in RowsOf(repository.table) && minStock <= p.stock <= maxStock <==> ToDto(p) in r
      ensures forall d :: d in r ==> FromDto(d) in RowsOf(repository.table)
    {
      var products := repository.GetProducts(None, Some(minStock), Some(maxStock));
      r := DtosOf(products);
    }

    /** Overwrites the row with the DTO's id; null if there is none. */
    method UpdateProduct(product: ProductDto) returns (r: Option<ProductDto>)
      requires repository.Valid()
      modifies repository
      ensures repository.Valid()
      ensures repository.table == Updated(old(repository.table), FromDto(product))
      ensures repository.sequenceNext == old(repository.sequenceNext)
      ensures r.None? <==> product.id !in old(repository.table)
      ensures r.Some? ==> r.value == product
    {
      var updated := repository.UpdateProduct(FromDto(product));
      if updated.None? {
        return None;
      }
      r := Some(ToDto(updated.value));
    }
  }
}
