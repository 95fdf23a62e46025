/** The decoded shape of one answer of the GraphQL endpoint to the product-variant
    query: the JSON body is decoded once, at the boundary, into these values. */
module Shopify {

  datatype Option<T> = None | Some(value: T)

  /** A JSON scalar as the query returns it: a string, or null for an absent value
      (a variant without sku or barcode, say). */
  datatype Scalar = Text(text: string) | Null

  /** `node.product`: the fields of the product a variant belongs to. */
  datatype Product = Product(
    title: Scalar,
    productType: Scalar,
    vendor: Scalar,
    createdAt: Scalar,
    updatedAt: Scalar)

  /** `edge.node`: one product variant; `inventoryItemId` is `inventoryItem.id`, a
      global id path such as `gid://shopify/InventoryItem/12345`. */
  datatype Variant = Variant(
    sku: Scalar,
    inventoryItemId: string,
    product: Product,
    title: Scalar,
    price: Scalar,
    barcode: Scalar)

  /** One edge of a page: the pagination cursor of the position and its node. */
  datatype Edge = Edge(cursor: string, node: Variant)

  /** `data.productVariants`: whether more pages follow, and this page's edges in order. */
  datatype Page = Page(hasNextPage: bool, edges: seq<Edge>)

  /** One entry of the `errors` list; `code` is `extensions.code`, None when the entry
      has no `extensions` or its `extensions` has no `code`. */
  datatype ErrorEntry = ErrorEntry(code: Option<string>)

  /** A decoded response body: the `errors` key and the `data` key, each present or not.
      Both can be present at once. */
  datatype Response = Response(errors: Option<seq<ErrorEntry>>, data: Option<Page>)
}
