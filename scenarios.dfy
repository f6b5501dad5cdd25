/** The scenarios of the repository's tests, stated over the model, and a client
    that drives the controller through a product's life. */
module Scenarios {
  import opened Wrappers
  import opened Models
  import opened Data
  import opened Repositories
  import opened Services
  import opened Controllers

  function FourRows(): Table {
    map[1 := Row("Product 01", 10), 2 := Row("Product 02", 20), 3 := Row("Product 03", 30), 4 := Row("Product 04", 40)]
  }

  /** Stocks 10, 20, 30, 40 and the window [15, 35]: exactly the stock-20 and stock-30 rows. */
  lemma StockWindowScenario()
    ensures Select(FourRows(), None, Some(15), Some(35)) == {Product(2, "Product 02", 20), Product(3, "Product 03", 30)}
  {
  }

  function ThreeRows(): Table {
    map[1 := Row("Product 01", 10), 2 := Row("Product 02", 20), 3 := Row("Product 03", 30)]
  }

  /** Both ends of the window are inclusive: [20, 20] over stocks 10, 20, 30 selects
      the single stock-20 row. */
  lemma ExactStockScenario()
    ensures Select(ThreeRows(), None, Some(20), Some(20)) == {Product(2, "Product 02", 20)}
  {
  }

  /** The window [40, 50] lies above every stock of 10, 20, 30 and selects nothing. */
  lemma OutOfRangeScenario()
    ensures Select(ThreeRows(), None, Some(40), Some(50)) == {}
  {
  }

  function NamedRows(): Table {
    map[1 := Row("Product 01", 10), 2 := Row("Test Product 02", 20), 3 := Row("Test Product 03", 30)]
  }

  /** "Product 01" has no 'T', so it does not contain "Test". */
  lemma NoTestInProduct01()
    ensures !Contains("Product 01", "Test")
  {
    var s: string := "Product 01";
    assert forall k :: 0 <= k < |s| ==> s[k] != 'T';
    forall i: nat | i <= |s|
      ensures !OccursAt(s, "Test", i)
    {
      if i + 4 <= |s| {
        assert s[i..i + 4][0] == s[i];
      }
    }
  }

  lemma NameFilterRejects()
    ensures Product(1, "Product 01", 10) !in Select(NamedRows(), Some("Test"), None, None)
  {
    NoTestInProduct01();
  }

  lemma NameFilterAccepts()
    ensures Product(2, "Test Product 02", 20) in Select(NamedRows(), Some("Test"), None, None)
    ensures Product(3, "Test Product 03", 30) in Select(NamedRows(), Some("Test"), None, None)
  {
  }

  /** The name filter "Test" selects the two rows whose names contain it. */
  lemma NameFilterScenario()
    ensures Select(NamedRows(), Some("Test"), None, None) == {Product(2, "Test Product 02", 20), Product(3, "Test Product 03", 30)}
  {
    var t := NamedRows();
    var expected := {Product(2, "Test Product 02", 20), Product(3, "Test Product 03", 30)};
    var found := Select(t, Some("Test"), None, None);
    NameFilterRejects();
    NameFilterAccepts();
    assert forall p :: p in RowsOf(t) ==> p == Product(1, "Product 01", 10) || p in expected;
    assert found <= RowsOf(t);
  }

  /** A product's life through the controller on a freshly seeded store: created
      with the sequence's first id, found, restocked past zero. */
  method ProductLifecycle()
  {
    var repository := new ProductRepository();
    var service := new ProductService(repository);
    var controller := new ProductsController(service);
    SeedTableContents();

    var created := controller.PostProduct(AddProductRequestDto("Widget", 5));
    assert created == CreatedAtAction("GetProduct", 100005, ProductDto(100005, "Widget", 5));

    var got := controller.GetProduct(100005);
    assert got == Ok(Single(ProductDto(100005, "Widget", 5)));

    var raised := controller.AddToStock(100005, 5);
    assert raised == Ok(Single(ProductDto(100005, "Widget", 10)));
    var lowered := controller.DecrementStock(100005, 20);
    assert lowered == Ok(Single(ProductDto(100005, "Widget", -10)));
  }

  /** Requests the controller turns away, and a delete followed by a get. */
  method RejectionsAndDelete()
  {
    var repository := new ProductRepository();
    var service := new ProductService(repository);
    var controller := new ProductsController(service);
    SeedTableContents();

    var all := controller.GetProducts();
    assert |all.body.products| == 5;

    var mismatch := controller.PutProduct(100001, ProductDto(100002, "Gadget", 1));
    assert StatusCode(mismatch) == 400;

    var oneBound := controller.GetProductsWithStockLevel(Some(0), None);
    assert StatusCode(oneBound) == 400;

    var deleted := controller.DeleteProduct(100004);
    assert StatusCode(deleted) == 204;
    var gone := controller.GetProduct(100004);
    assert StatusCode(gone) == 404;
    var again := controller.DeleteProduct(100004);
    assert StatusCode(again) == 404;
  }
}
