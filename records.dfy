/** The flat records the fetcher produces: one per variant, a mapping from the ten
    column names to values whose keys are written in a fixed order. */
module Records {
  import opened Shopify
  import opened PathSegment

  /** The column names of every record, in the order the record's keys are written. */
  const FieldNames: seq<string> := [
    "sku", "inventory_item_id", "price", "variant_title", "product_type",
    "vendor", "created_at", "updated_at", "barcode", "product_title"]

  /** One flat record, a value per column. */
  datatype Record = Record(
    sku: Scalar,
    inventoryItemId: Scalar,
    price: Scalar,
    variantTitle: Scalar,
    productType: Scalar,
    vendor: Scalar,
    createdAt: Scalar,
    updatedAt: Scalar,
    barcode: Scalar,
    productTitle: Scalar)

  /** The record as the insertion-ordered dictionary the source builds: its
      (key, value) pairs in the order the keys are written. */
  function Items(r: Record): (items: seq<(string, Scalar)>)
  {
    [ ("sku", r.sku),
      ("inventory_item_id", r.inventoryItemId),
      ("price", r.price),
      ("variant_title", r.variantTitle),
      ("product_type", r.productType),
      ("vendor", r.vendor),
      ("created_at", r.createdAt),
      ("updated_at", r.updatedAt),
      ("barcode", r.barcode),
      ("product_title", r.productTitle) ]
  }

  /** The keys of a dictionary given by its items, in order. */
  function Keys(items: seq<(string, Scalar)>): (keys: seq<string>)
    ensures |keys| == |items|
  {
    seq(|items|, i requires 0 <= i < |items| => items[i].0)
  }

  /** The values of a dictionary given by its items, in key order. */
  function Values(items: seq<(string, Scalar)>): (values: seq<Scalar>)
    ensures |values| == |items|
  {
    seq(|items|, i requires 0 <= i < |items| => items[i].1)
  }

  /** The record built for one variant. */
  function MakeRecord(v: Variant): Record
  {
    Record(
      sku := v.sku,
      inventoryItemId := Text(LastSegment(v.inventoryItemId)),
      price := v.price,
      variantTitle := v.title,
      productType := v.product.productType,
      vendor := v.product.vendor,
      createdAt := v.product.createdAt,
      updatedAt := v.product.updatedAt,
      barcode := v.barcode,
      productTitle := v.product.title)
  }

  /** Every record has the same ten keys in the same order. */
  lemma RecordKeys(r: Record)
    ensures Keys(Items(r)) == FieldNames
  {
    var keys := Keys(Items(r));
    forall i | 0 <= i < |FieldNames| ensures keys[i] == FieldNames[i] {
    }
  }

  /** The record of a variant: the inventory id is cut down to the text after its last
      '/', the other nine values are copied from the variant and its product unchanged. */
  lemma RecordColumns(v: Variant)
    ensures Keys(Items(MakeRecord(v))) == FieldNames
    ensures var id := MakeRecord(v).inventoryItemId;
      id.Text? && AfterLastSlash(v.inventoryItemId, id.text)
    ensures Values(Items(MakeRecord(v))) == [
      v.sku, Text(LastSegment(v.inventoryItemId)), v.price, v.title, v.product.productType,
      v.product.vendor, v.product.createdAt, v.product.updatedAt, v.barcode, v.product.title]
  {
    LastSegmentAfterLastSlash(v.inventoryItemId);
    RecordKeys(MakeRecord(v));
    var values := Values(Items(MakeRecord(v)));
    assert |values| == 10;
  }

  /** The records of one page, built from the last edge back. */
  function PageRecords(edges: seq<Edge>): (rs: seq<Record>)
    ensures |rs| == |edges|
  {
    if edges == [] then []
    else PageRecords(edges[..|edges| - 1]) + [MakeRecord(edges[|edges| - 1].node)]
  }

  /** The records of a page: exactly one per edge, in edge order. */
  lemma {:induction false} PageRecordsOnePerEdge(edges: seq<Edge>)
    ensures forall k | 0 <= k < |edges| :: PageRecords(edges)[k] == MakeRecord(edges[k].node)
    decreases |edges|
  {
    if edges != [] {
      var init := edges[..|edges| - 1];
      PageRecordsOnePerEdge(init);
      assert forall k | 0 <= k < |init| :: init[k] == edges[k];
    }
  }

  /** The records of consecutive runs of edges follow one another. */
  lemma PageRecordsAppend(a: seq<Edge>, b: seq<Edge>)
    ensures PageRecords(a + b) == PageRecords(a) + PageRecords(b)
  {
    PageRecordsOnePerEdge(a + b);
    PageRecordsOnePerEdge(a);
    PageRecordsOnePerEdge(b);
    var lhs, rhs := PageRecords(a + b), PageRecords(a) + PageRecords(b);
    forall k | 0 <= k < |a + b| ensures lhs[k] == rhs[k] {
      if k < |a| {
        assert (a + b)[k] == a[k];
      } else {
        assert (a + b)[k] == b[k - |a|];
      }
    }
  }
}
