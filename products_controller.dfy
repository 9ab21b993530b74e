/** `ProductsController`: each handler turns the path or query string into
    a number with base-10 `parseInt`, refuses NaN with a BadRequest before
    the products service is called, and wraps what the service returns in
    a response object. The service is a parameter: one function per
    operation, each answering with a value or the exception the database
    raised, which the handler lets escape after the call. */
module ProductsController {
  import opened Wrappers
  import opened Numbers

  /** A product row as the service returns it. */
  datatype Product = Product(
    id: int, name: string, description: string, price: real, stock: int,
    createdAt: int, updatedAt: int, ownerId: Option<int>)

  /** A request body, passed to the service untouched. */
  datatype Body = Body(fields: map<string, string>)

  /** `new ProductResponseDto(product)`: a copy of the product's fields; a
      missing product gives an empty response. */
  datatype ProductResponse = ProductResponse(product: Option<Product>)

  /** The products service as the controller sees it. `findOne` and
      `update` answer `None` where the repository finds no row. */
  datatype ProductsService = ProductsService(
    create: Body -> Outcome<Product>,
    findAll: Option<int> -> Outcome<seq<Product>>,
    findOne: int -> Outcome<Option<Product>>,
    update: (int, Body) -> Outcome<Option<Product>>,
    remove: int -> Outcome<()>)

  /** The service call a handler makes, with its arguments. */
  datatype ServiceCall =
    | CreateCall(body: Body)
    | FindAllCall(ownerId: Option<int>)
    | FindOneCall(id: int)
    | UpdateCall(id: int, body: Body)
    | RemoveCall(id: int)

  /** What a handler did: the service call it made, if any, and the
      response or the exception. */
  datatype Handled<T> = Handled(call: Option<ServiceCall>, result: Outcome<T>)

  const InvalidOwnerIdMessage: string := "Owner ID không hợp lệ"
  const InvalidIdMessage: string := "ID không hợp lệ"

  /** The response wrapping one product. */
  function Wrap(p: Option<Product>): ProductResponse
  {
    ProductResponse(p)
  }

  /** `products.map(p => new ProductResponseDto(p))`: one response per
      product, in the service's order. */
  function WrapAll(products: seq<Product>): (r: seq<ProductResponse>)
    ensures |r| == |products|
    ensures forall i :: 0 <= i < |r| ==> r[i] == Wrap(Some(products[i]))
  {
    if products == [] then [] else [Wrap(Some(products[0]))] + WrapAll(products[1..])
  }

  /** `POST /products`: the body goes to the service and its product is
      wrapped; a failure of the service is the handler's failure. */
  function Create(body: Body, service: ProductsService): (h: Handled<ProductResponse>)
    ensures h.call == Some(CreateCall(body))
    ensures service.create(body).Err? ==> h.result == Err(service.create(body).error)
    ensures service.create(body).Ok? ==> h.result == Ok(Wrap(Some(service.create(body).value)))
  {
    match service.create(body)
    case Err(e) => Handled(Some(CreateCall(body)), Err(e))
    case Ok(product) => Handled(Some(CreateCall(body)), Ok(Wrap(Some(product))))
  }

  /** `GET /products?ownerId=`: an absent or empty `ownerId` reaches the
      service as undefined; a non-empty one that parses to NaN is refused
      before the service is asked; otherwise its parsed value is the owner
      filter. */
  function FindAll(ownerId: Option<string>, service: ProductsService): (h: Handled<seq<ProductResponse>>)
    ensures ownerId.Some? && ownerId.value != "" && ParseInt(ownerId.value).None? ==>
      h == Handled(None, Err(BadRequest(InvalidOwnerIdMessage)))
    ensures !(ownerId.Some? && ownerId.value != "" && ParseInt(ownerId.value).None?) ==>
      var filter := if ownerId.None? || ownerId.value == "" then None else ParseInt(ownerId.value);
      h.call == Some(FindAllCall(filter)) &&
      (service.findAll(filter).Err? ==> h.result == Err(service.findAll(filter).error)) &&
      (service.findAll(filter).Ok? ==> h.result == Ok(WrapAll(service.findAll(filter).value)))
  {
    var truthy := ownerId.Some? && ownerId.value != "";
    var parsedOwnerId := if truthy then ParseInt(ownerId.value) else None;
    if truthy && parsedOwnerId.None? then
      Handled(None, Err(BadRequest(InvalidOwnerIdMessage)))
    else
      match service.findAll(parsedOwnerId)
      case Err(e) => Handled(Some(FindAllCall(parsedOwnerId)), Err(e))
      case Ok(products) => Handled(Some(FindAllCall(parsedOwnerId)), Ok(WrapAll(products)))
  }

  /** `GET /products/:id`: a NaN id is refused before the service is
      asked; otherwise the service's answer for the parsed id is wrapped,
      an empty response when there is no such product. */
  function FindOne(id: string, service: ProductsService): (h: Handled<ProductResponse>)
    ensures ParseInt(id).None? ==> h == Handled(None, Err(BadRequest(InvalidIdMessage)))
    ensures ParseInt(id).Some? ==>
      var n := ParseInt(id).value;
      h.call == Some(FindOneCall(n)) &&
      (service.findOne(n).Err? ==> h.result == Err(service.findOne(n).error)) &&
      (service.findOne(n).Ok? ==> h.result == Ok(Wrap(service.findOne(n).value)))
  {
    match ParseInt(id)
    case None => Handled(None, Err(BadRequest(InvalidIdMessage)))
    case Some(productId) =>
      match service.findOne(productId)
      case Err(e) => Handled(Some(FindOneCall(productId)), Err(e))
      case Ok(product) => Handled(Some(FindOneCall(productId)), Ok(Wrap(product)))
  }

  /** `PATCH /products/:id`: as `FindOne`, with the body passed on. */
  function Update(id: string, body: Body, service: ProductsService): (h: Handled<ProductResponse>)
    ensures ParseInt(id).None? ==> h == Handled(None, Err(BadRequest(InvalidIdMessage)))
    ensures ParseInt(id).Some? ==>
      var n := ParseInt(id).value;
      h.call == Some(UpdateCall(n, body)) &&
      (service.update(n, body).Err? ==> h.result == Err(service.update(n, body).error)) &&
      (service.update(n, body).Ok? ==> h.result == Ok(Wrap(service.update(n, body).value)))
  {
    match ParseInt(id)
    case None => Handled(None, Err(BadRequest(InvalidIdMessage)))
    case Some(productId) =>
      match service.update(productId, body)
      case Err(e) => Handled(Some(UpdateCall(productId, body)), Err(e))
      case Ok(updatedProduct) => Handled(Some(UpdateCall(productId, body)), Ok(Wrap(updatedProduct)))
  }

  /** `DELETE /products/:id`: a NaN id is refused, any other id is handed
      to the service, whose answer is the handler's. */
  function Remove(id: string, service: ProductsService): (h: Handled<()>)
    ensures ParseInt(id).None? ==> h == Handled(None, Err(BadRequest(InvalidIdMessage)))
    ensures ParseInt(id).Some? ==>
      h == Handled(Some(RemoveCall(ParseInt(id).value)), service.remove(ParseInt(id).value))
  {
    match ParseInt(id)
    case None => Handled(None, Err(BadRequest(InvalidIdMessage)))
    case Some(productId) => Handled(Some(RemoveCall(productId)), service.remove(productId))
  }

  /** The service is called exactly when the id parses. A request it is
      not asked about is refused with the invalid-id BadRequest, and every
      success went through the service; a call may still fail, with the
      service's exception. */
  lemma {:induction false} ServiceCalledIffIdParses(id: string, body: Body, service: ProductsService)
    ensures FindOne(id, service).call.Some? <==> ParseInt(id).Some?
    ensures Update(id, body, service).call.Some? <==> ParseInt(id).Some?
    ensures Remove(id, service).call.Some? <==> ParseInt(id).Some?
    ensures ParseInt(id).None? ==>
      FindOne(id, service).result == Update(id, body, service).result == Err(BadRequest(InvalidIdMessage)) &&
      Remove(id, service).result == Err(BadRequest(InvalidIdMessage))
    ensures FindOne(id, service).result.Ok? ==> FindOne(id, service).call.Some?
    ensures Update(id, body, service).result.Ok? ==> Update(id, body, service).call.Some?
    ensures Remove(id, service).result.Ok? ==> Remove(id, service).call.Some?
  {
  }

  /** An id written in decimal, with or without a sign, reaches the
      service as the number it names. */
  lemma {:induction false} DecimalIdRoundTrip(n: int, body: Body, service: ProductsService)
    ensures FindOne(ShowInt(n), service).call == Some(FindOneCall(n))
    ensures Update(ShowInt(n), body, service).call == Some(UpdateCall(n, body))
    ensures Remove(ShowInt(n), service).call == Some(RemoveCall(n))
  {
    ParseIntOfShowInt(n);
  }

  /** Anything after the leading digits is ignored: `/products/12abc`
      asks the service for product 12, while an id that starts with neither
      white space, a sign nor a digit, such as `abc`, is refused. */
  lemma {:induction false} TrailingCharactersIgnored(n: nat, rest: string, service: ProductsService)
    requires rest == [] || (!IsDigit(rest[0]) && !IsWhiteSpace(rest[0]) && rest[0] != '-' && rest[0] != '+')
    ensures FindOne(ShowNat(n) + rest, service).call == Some(FindOneCall(n))
    ensures FindOne(rest, service).result == Err(BadRequest(InvalidIdMessage))
  {
    ParseIntOfDigits(n, rest);
    assert TrimStart(rest) == rest;
    ParseIntNaN(rest);
  }

  /** `?ownerId=` with an empty value lists every product as if no owner
      were given. */
  lemma EmptyOwnerIdIsNoFilter(service: ProductsService)
    ensures FindAll(Some(""), service) == FindAll(None, service)
  {
  }
}
