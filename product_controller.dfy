/** `ProductsController`: each action calls the service at most once and turns the
    route arguments and the service's outcome into an HTTP response. */
module Controllers {
  import opened Wrappers
  import opened Models
  import opened Data
  import opened Repositories
  import opened Services

  /** A response body: one product or a list of them. */
  datatype Body = Single(product: ProductDto) | Listing(products: set<ProductDto>)

  /** The action results the controller produces. `Unhandled` is an exception that
      escapes the action; the framework answers it with 500. */
  datatype ActionResult =
    | Ok(body: Body)
    | CreatedAtAction(actionName: string, routeId: int32, value: ProductDto)
    | NoContent
    | BadRequest
    | NotFound
    | Unhandled(error: StoreError)

  /** The HTTP status each kind of action result is answered with; distinct kinds get distinct codes. */
  function StatusCode(r: ActionResult): (code: int)
    ensures code == 200 <==> r.Ok?
    ensures code == 201 <==> r.CreatedAtAction?
    ensures code == 204 <==> r.NoContent?
    ensures code == 400 <==> r.BadRequest?
    ensures code == 404 <==> r.NotFound?
    ensures code == 500 <==> r.Unhandled?
  {
    match r
    case Ok(_) => 200
    case CreatedAtAction(_, _, _) => 201
    case NoContent => 204
    case BadRequest => 400
    case NotFound => 404
    case Unhandled(_) => 500
  }

  class ProductsController {
    const service: ProductService

    constructor (service: ProductService)
      ensures this.service == service
    {
      this.service := service;
    }

    /** GET /api/products: 200 with every product. */
    method GetProducts() returns (r: ActionResult)
      ensures r == Ok(Listing(DtosOf(RowsOf(service.repository.table))))
      ensures |r.body.products| == |service.repository.table|
    {
      var products := service.GetProducts();
      r := Ok(Listing(products));
    }

    /** GET /api/products/{id}: 404 when absent, otherwise 200 with the product. */
    method GetProduct(id: int32) returns (r: ActionResult)
      ensures StatusCode(r) == 404 <==> id !in service.repository.table
      ensures id in service.repository.table ==> r == Ok(Single(ToDto(ProductAt(service.repository.table, id))))
      ensures r.Ok? || r.NotFound?
    {
      var product := service.GetProduct(id);
      if product.None? {
        return NotFound;
      }
      r := Ok(Single(product.value));
    }

    /** POST /api/products: 201 with the created product and its store-assigned id;
        a store failure escapes as an exception. */
    method PostProduct(product: AddProductRequestDto) returns (r: ActionResult)
      requires service.repository.Valid()
      modifies service.repository
      ensures service.repository.Valid()
      ensures var ins := Inserted(old(service.repository.table), old(service.repository.sequenceNext), Some(FromRequest(product)));
        && service.repository.table == ins.table && service.repository.sequenceNext == ins.next
        && (r.CreatedAtAction? <==> ins.result.Success?)
        && (r.Unhandled? ==> r.error == ins.result.error)
      ensures r.CreatedAtAction? || r.Unhandled?
      ensures r.CreatedAtAction? ==>
        && r.actionName == "GetProduct"
        && r.routeId == r.value.id == old(service.repository.sequenceNext)
        && SequenceMin <= r.value.id <= SequenceMax
        && r.value.name == product.name && r.value.stock == product.stock
        && Find(service.repository.table, r.routeId) == Some(FromDto(r.value))
      ensures r.Unhandled? ==> service.repository.table == old(service.repository.table)
      ensures old(KeysBelowSequence(service.repository.table, service.repository.sequenceNext)) ==>
        && KeysBelowSequence(service.repository.table, service.repository.sequenceNext)
        && (r.CreatedAtAction? <==> old(service.repository.sequenceNext) <= SequenceMax)
    {
      var added := service.AddProduct(product);
      match added
      case Success(d) => r := CreatedAtAction("GetProduct", d.id, d);
      case Failure(e) => r := Unhandled(e);
    }

    /** PUT /api/products/{id}: 400 on an id mismatch (the service is not called),
        404 when absent, otherwise 200 with the updated product. */
    method PutProduct(id: int32, product: ProductDto) returns (r: ActionResult)
      requires service.repository.Valid()
      modifies service.repository
      ensures service.repository.Valid()
      ensures id != product.id ==> r == BadRequest && unchanged(service.repository)
      ensures id == product.id ==>
        && service.repository.table == Updated(old(service.repository.table), FromDto(product))
        && service.repository.sequenceNext == old(service.repository.sequenceNext)
        && r == (if id in old(service.repository.table) then Ok(Single(product)) else NotFound)
    {
      if id != product.id {
        return BadRequest;
      }
      var updated := service.UpdateProduct(product);
      if updated.None? {
        return NotFound;
      }
      r := Ok(Single(updated.value));
    }

    /** DELETE /api/products/{id}: 404 when absent, otherwise 204. */
    method DeleteProduct(id: int32) returns (r: ActionResult)
      requires service.repository.Valid()
      modifies service.repository
      ensures service.repository.Valid()
      ensures service.repository.table == Deleted(old(service.repository.table), id)
      ensures service.repository.sequenceNext == old(service.repository.sequenceNext)
      ensures r == (if id in old(service.repository.table) then NoContent else NotFound)
    {
      var deleted := service.DeleteProduct(id);
      if deleted.None? {
        return NotFound;
      }
      r := NoContent;
    }

    /** PUT /api/products/{id}/decrement-stock/{quantity}: 404 when absent, otherwise
        200 with the product and its decreased stock. */
    method DecrementStock(id: int32, quantity: int32) returns (r: ActionResult)
      requires service.repository.Valid()
      modifies service.repository
      ensures service.repository.Valid()
      ensures service.repository.table == Restocked(old(service.repository.table), id, -(quantity as int))
      ensures service.repository.sequenceNext == old(service.repository.sequenceNext)
      ensures id !in old(service.repository.table) ==> r == NotFound
      ensures id in old(service.repository.table) ==> r == Ok(Single(ToDto(ProductAt(service.repository.table, id))))
    {
      var product := service.DecreaseStock(id, quantity);
      if product.None? {
        return NotFound;
      }
      r := Ok(Single(product.value));
    }

    /** PUT /api/products/{id}/add-to-stock/{quantity}: 404 when absent, otherwise
        200 with the product and its increased stock. */
    method AddToStock(id: int32, quantity: int32) returns (r: ActionResult)
      requires service.repository.Valid()
      modifies service.repository
      ensures service.repository.Valid()
      ensures service.repository.table == Restocked(old(service.repository.table), id, quantity)
      ensures service.repository.sequenceNext == old(service.repository.sequenceNext)
      ensures id !in old(service.repository.table) ==> r == NotFound
      ensures id in old(service.repository.table) ==> r == Ok(Single(ToDto(ProductAt(service.repository.table, id))))
    {
      var product := service.AddStock(id, quantity);
      if product.None? {
        return NotFound;
      }
      r := Ok(Single(product.value));
    }

    /** GET /api/products/search?name=: 204 when no name contains the text, otherwise
        200 with the matching products. */
    method SearchProduct(name: string) returns (r: ActionResult)
      ensures var found := Select(service.repository.table, Some(name), None, None);
        r == if found == {} then NoContent else Ok(Listing(DtosOf(found)))
    {
      var products := service.GetProductsByName(name);
      if products == {} {
        return NoContent;
      }
      r := Ok(Listing(products));
    }

    /** GET /api/products/stock-level?min=&max=: 400 when a bound is missing, so the
        repository never sees a single bound; 204 when no stock lies in the closed
        range, otherwise 200 with the products in it. */
    method GetProductsWithStockLevel(min: Option<int32>, max: Option<int32>) returns (r: ActionResult)
      ensures min.None? || max.None? ==> r == BadRequest
      ensures min.Some? && max.Some? ==>
        var found := Select(service.repository.table, None, min, max);
        && (forall p :: p in found <==> p in RowsOf(service.repository.table) && min.value <= p.stock <= max.value)
        && r == if found == {} then NoContent else Ok(Listing(DtosOf(found)))
    {
      if min.None? || max.None? {
        return BadRequest;
      }
      var products := service.GetProductsByStockLevel(min.value, max.value);
      if products == {} {
        return NoContent;
      }
      r := Ok(Listing(products));
    }
  }
}
