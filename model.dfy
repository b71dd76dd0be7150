/** The plain records of the product catalogue (model/core.go, model/product.go,
    model/request.go) and the small wrappers the other modules share. */
module Model {

  /** Go's `int32`: every value the source stores in an int32 field lies in this range. */
  type Int32 = x: int | -0x8000_0000 <= x <= 0x7fff_ffff

  /** Go's `int64`. */
  type Int64 = x: int | -0x8000_0000_0000_0000 <= x <= 0x7fff_ffff_ffff_ffff

  /** Reduces an integer to `int32` the way Go's conversion and int32 arithmetic do:
      two's-complement wrap-around. */
  function Wrap32(x: int): (r: Int32)
    ensures x - r == (x + 0x8000_0000) / 0x1_0000_0000 * 0x1_0000_0000
  {
    (x + 0x8000_0000) % 0x1_0000_0000 - 0x8000_0000
  }

  datatype Option<+T> = None | Some(value: T)

  datatype Result<+T, +E> = Ok(value: T) | Err(error: E)

  /** A product row. Timestamps are abstract instants; `None` stands for a nil pointer.
      The price is a float64 in the source, of which only the sign is ever tested. */
  datatype Product = Product(
    productId: Int64,
    name: string,
    price: real,
    description: string,
    quantity: Int32,
    createdAt: Option<int>,
    updatedAt: Option<int>)

  /** The zero value `model.Product{}`, which the store returns for a name it does not hold. */
  const EmptyProduct: Product := Product(0, "", 0.0, "", 0, None, None)

  /** A sort column and direction (model/core.go). */
  datatype Sort = Sort(column: string, direction: string)

  /** The pagination block of a list response (model/core.go). */
  datatype PaginationResponse = PaginationResponse(limit: Int32, page: Int32, totalRows: Int64, totalPages: Int32)

  datatype ListProductRequest = ListProductRequest(page: Int32, limit: Int32, sort: string, dir: string, query: string)

  datatype ListProductResponse = ListProductResponse(
    error: bool,
    code: Int32,
    message: string,
    data: seq<Product>,
    pagination: PaginationResponse)

  datatype CreateProductRequest = CreateProductRequest(name: string, price: real, description: string, quantity: Int32)

  /** The gRPC status codes the service answers with. */
  datatype Code = Aborted | InvalidArgument | Internal
}
