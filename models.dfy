/** The entity and its two wire shapes, with the field copies that AutoMapper performs. */
module Models {

  const MinInt32: int := -0x8000_0000
  const MaxInt32: int := 0x7fff_ffff

  /** C#'s `int`. */
  type int32 = x: int | MinInt32 <= x <= MaxInt32

  /** C#'s `+` and `-` on `int` in the default unchecked context: the exact result
      reduced to 32-bit two's complement. */
  function Wrap32(x: int): (r: int32)
    ensures MinInt32 <= x <= MaxInt32 ==> r == x
    ensures (x - r) % 0x1_0000_0000 == 0
  {
    var m := (x + 0x8000_0000) % 0x1_0000_0000;
    assert x - (m - 0x8000_0000) == 0x1_0000_0000 * ((x + 0x8000_0000) / 0x1_0000_0000);
    m - 0x8000_0000
  }

  /** A stored product. `id == 0` is the CLR default, i.e. "no id yet". */
  datatype Product = Product(id: int32, name: string, stock: int32)

  /** The full wire representation. */
  datatype ProductDto = ProductDto(id: int32, name: string, stock: int32)

  /** The creation payload, which has no id. */
  datatype AddProductRequestDto = AddProductRequestDto(name: string, stock: int32)

  function ToDto(p: Product): ProductDto {
    ProductDto(p.id, p.name, p.stock)
  }

  /** The reverse map of `Product <-> ProductDto`; together with `ToDto` a bijection. */
  function FromDto(d: ProductDto): (p: Product)
    ensures ToDto(p) == d
    ensures forall q :: ToDto(q) == d ==> q == p
  {
    Product(d.id, d.name, d.stock)
  }

  /** The entity-to-request copy (the `.ReverseMap()` of the request map): the id is dropped. */
  function ToRequest(p: Product): AddProductRequestDto {
    AddProductRequestDto(p.name, p.stock)
  }

  /** The request-to-entity map: the id is left at its default 0, so the store assigns one.
      It inverts `ToRequest`, and it is the only product with id 0 that does. */
  function FromRequest(req: AddProductRequestDto): (p: Product)
    ensures p.id == 0
    ensures ToRequest(p) == req
    ensures forall q: Product :: q.id == 0 && ToRequest(q) == req ==> q == p
  {
    Product(0, req.name, req.stock)
  }
}
