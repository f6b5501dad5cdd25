/** The store: the products table keyed by its primary key, the seed rows, and the
    id sequence that supplies the key of a product inserted without one. */
module Data {
  import opened Wrappers
  import opened Models

  /** A stored row: everything but the key. */
  datatype Row = Row(name: string, stock: int32)

  /** The products table. Being a map from the key, it cannot hold two rows with one id. */
  type Table = map<int32, Row>

  /** The ways a store round trip can fail. */
  datatype StoreError =
    | ArgumentNull       // no product was given to insert
    | DuplicateKey       // the key is already in the table
    | SequenceExhausted  // the id sequence is past its maximum and does not cycle

  function RowOf(p: Product): Row {
    Row(p.name, p.stock)
  }

  function ProductAt(t: Table, id: int32): Product
    requires id in t
  {
    Product(id, t[id].name, t[id].stock)
  }

  /** The products a query over the whole table sees. */
  function RowsOf(t: Table): (r: set<Product>)
    ensures forall p :: p in r <==> p.id in t && t[p.id] == RowOf(p)
    ensures forall p, q :: p in r && q in r && p.id == q.id ==> p == q
  {
    set id | id in t :: ProductAt(t, id)
  }

  /** The whole table has as many products as keys. */
  lemma {:induction false} RowsOfCount(t: Table)
    ensures |RowsOf(t)| == |t|
    decreases |t|
  {
    if t != map[] {
      var id :| id in t;
      var rest := t - {id};
      RowsOfCount(rest);
      assert RowsOf(t) == RowsOf(rest) + {ProductAt(t, id)};
      assert ProductAt(t, id) !in RowsOf(rest);
      assert |t| == |rest| + 1 by {
        assert t.Keys == rest.Keys + {id};
      }
    }
  }

  // The id sequence `dbo.ProductIdSequence`.
  const SequenceStart: int := 100005
  const SequenceMin: int := 100000
  const SequenceMax: int := 999999
  const SequenceIncrement: int := 1

  /** The sequence's state: the value `NEXT VALUE FOR` hands out next, or one past
      the maximum once it is exhausted. */
  predicate SequenceValid(next: int) {
    SequenceMin <= next <= SequenceMax + SequenceIncrement
  }

  /** `NEXT VALUE FOR dbo.ProductIdSequence`: the drawn id and the sequence's next state. */
  function DrawId(next: int): (r: Result<(int32, int), StoreError>)
    requires SequenceValid(next)
    ensures r.Success? <==> next <= SequenceMax
    ensures r.Failure? ==> r.error == SequenceExhausted
    ensures r.Success? ==> var (id, next') := r.value;
      && id == next && SequenceMin <= id <= SequenceMax
      && next' == id + SequenceIncrement && SequenceValid(next')
  {
    if next <= SequenceMax then Success((next as int32, next + SequenceIncrement))
    else Failure(SequenceExhausted)
  }

  /** Every key in the table was drawn before the sequence's current state, so the
      next drawn id is fresh. */
  predicate KeysBelowSequence(t: Table, next: int) {
    forall id :: id in t ==> id < next
  }

  // The seed rows of `OnModelCreating`.
  const SeedProducts: seq<Product> := [
    Product(100000, "Product 1", 10),
    Product(100001, "Product 2", 20),
    Product(100002, "Product 3", 30),
    Product(100003, "Product 4", 40),
    Product(100004, "Product 5", 50)
  ]

  predicate DistinctIds(ps: seq<Product>) {
    forall i, j :: 0 <= i < j < |ps| ==> ps[i].id != ps[j].id
  }

  /** `HasData`: the table holding the given rows. */
  function TableOf(ps: seq<Product>): Table {
    if ps == [] then map[] else TableOf(ps[..|ps| - 1])[ps[|ps| - 1].id := RowOf(ps[|ps| - 1])]
  }

  /** Rows with distinct keys become exactly the table's rows, one row each. */
  lemma {:induction false} TableOfDistinct(ps: seq<Product>)
    requires DistinctIds(ps)
    ensures |TableOf(ps)| == |ps|
    ensures forall id :: id in TableOf(ps) <==> exists i :: 0 <= i < |ps| && ps[i].id == id
    ensures forall i :: 0 <= i < |ps| ==> ps[i].id in TableOf(ps) && TableOf(ps)[ps[i].id] == RowOf(ps[i])
  {
    if ps != [] {
      var init, last := ps[..|ps| - 1], ps[|ps| - 1];
      TableOfDistinct(init);
      assert last.id !in TableOf(init);
      forall id
        ensures id in TableOf(ps) <==> exists i :: 0 <= i < |ps| && ps[i].id == id
      {
        if id in TableOf(init) {
          var i :| 0 <= i < |init| && init[i].id == id;
          assert ps[i].id == id;
        }
        if id == last.id {
          assert ps[|ps| - 1].id == id;
        }
        if i :| 0 <= i < |ps| && ps[i].id == id {
          if i < |init| {
            assert init[i].id == id;
          }
        }
      }
      forall i | 0 <= i < |ps|
        ensures ps[i].id in TableOf(ps) && TableOf(ps)[ps[i].id] == RowOf(ps[i])
      {
        if i < |init| {
          assert init[i] == ps[i];
        }
      }
    }
  }

  /** The table as first created. */
  function SeedTable(): Table {
    TableOf(SeedProducts)
  }

  /** The seed holds exactly the five rows of the seed array, ids 100000 to 100004
      with stocks 10 to 50, and every id is below the sequence's start, so no drawn
      id collides with a seed row. */
  lemma SeedTableContents()
    ensures SeedTable() == map[
      100000 := Row("Product 1", 10),
      100001 := Row("Product 2", 20),
      100002 := Row("Product 3", 30),
      100003 := Row("Product 4", 40),
      100004 := Row("Product 5", 50)]
    ensures |SeedTable()| == 5
    ensures forall id :: id in SeedTable() ==> SequenceMin <= id && SeedTable()[id].stock == 10 * (id - SequenceMin + 1)
    ensures KeysBelowSequence(SeedTable(), SequenceStart) && SequenceValid(SequenceStart)
  {
    var ps := SeedProducts;
    assert DistinctIds(ps);
    TableOfDistinct(ps);
    var m := map[
      100000 := Row("Product 1", 10),
      100001 := Row("Product 2", 20),
      100002 := Row("Product 3", 30),
      100003 := Row("Product 4", 40),
      100004 := Row("Product 5", 50)];
    assert ps[0].id in SeedTable() && ps[1].id in SeedTable() && ps[2].id in SeedTable();
    assert ps[3].id in SeedTable() && ps[4].id in SeedTable();
    assert SeedTable().Keys == m.Keys;
  }
}
