/** Product lookups and the stock adjustment of the data-access layer. */
module ProductCrud {
  import opened Base
  import opened Records
  import opened Queries
  import opened Text
  import opened Store

  function HasId(id: Id): Product -> bool { (p: Product) => p.id == id }
  function NameIs(name: string): Product -> bool { (p: Product) => p.name == name }
  function InCategory(category: string): Product -> bool { (p: Product) => p.category == Some(category) }
  function InStock(): Product -> bool { (p: Product) => p.stockQuantity > 0 }

  /** ILIKE '%query%' on the name, or on the description when there is one. */
  function MatchesQuery(query: string): Product -> bool
  {
    (p: Product) => ContainsIgnoringCase(p.name, query)
         || (p.description.Some? && ContainsIgnoringCase(p.description.value, query))
  }

  /** The position of the product with key `id`, as the generic lookup by primary key finds it. */
  function Find(products: seq<Product>, id: Id): (r: Option<nat>)
    ensures r.Some? ==> r.value < |products| && products[r.value].id == id
    ensures r.None? <==> forall i :: 0 <= i < |products| ==> products[i].id != id
  {
    IndexWhere(products, HasId(id))
  }

  /** The product with key `id`, or none. */
  function Get(products: seq<Product>, id: Id): (r: Option<Product>)
    ensures r.Some? ==> r.value in products && r.value.id == id
    ensures r.None? <==> forall i :: 0 <= i < |products| ==> products[i].id != id
  {
    match Find(products, id)
    case None => None
    case Some(k) => Some(products[k])
  }

  /** The first product with exactly this name, or none when no product has it. */
  function GetByName(products: seq<Product>, name: string): (r: Option<Product>)
    ensures r.Some? ==> exists k :: 0 <= k < |products| && products[k] == r.value && r.value.name == name
                                    && forall j :: 0 <= j < k ==> products[j].name != name
    ensures r.None? <==> forall j :: 0 <= j < |products| ==> products[j].name != name
  {
    First(products, NameIs(name))
  }

  /** Products of this category, paged; a product without a category never matches. */
  function GetByCategory(products: seq<Product>, category: string, skip: nat, limit: nat): (r: seq<Product>)
    ensures |r| <= limit
    ensures |r| == Min(limit, if skip <= |Filter(products, InCategory(category))| then |Filter(products, InCategory(category))| - skip else 0)
    ensures forall i :: 0 <= i < |r| ==> r[i] == Filter(products, InCategory(category))[skip + i]
    ensures forall i :: 0 <= i < |r| ==> r[i] in products && r[i].category == Some(category)
    ensures skip == 0 && |Filter(products, InCategory(category))| <= limit ==>
      forall i :: 0 <= i < |products| && products[i].category == Some(category) ==> products[i] in r
  {
    Select(products, InCategory(category), skip, limit)
  }

  /** Products with positive stock, paged. */
  function GetAvailableProducts(products: seq<Product>, skip: nat, limit: nat): (r: seq<Product>)
    ensures |r| <= limit
    ensures |r| == Min(limit, if skip <= |Filter(products, InStock())| then |Filter(products, InStock())| - skip else 0)
    ensures forall i :: 0 <= i < |r| ==> r[i] == Filter(products, InStock())[skip + i]
    ensures forall i :: 0 <= i < |r| ==> r[i] in products && r[i].stockQuantity > 0
    ensures skip == 0 && |Filter(products, InStock())| <= limit ==>
      forall i :: 0 <= i < |products| && products[i].stockQuantity > 0 ==> products[i] in r
  {
    Select(products, InStock(), skip, limit)
  }

  /** Products whose name or description contains `query`, ignoring case, paged. */
  function SearchProducts(products: seq<Product>, query: string, skip: nat, limit: nat): (r: seq<Product>)
    ensures |r| <= limit
    ensures |r| == Min(limit, if skip <= |Filter(products, MatchesQuery(query))| then |Filter(products, MatchesQuery(query))| - skip else 0)
    ensures forall i :: 0 <= i < |r| ==> r[i] == Filter(products, MatchesQuery(query))[skip + i]
    ensures forall i :: 0 <= i < |r| ==>
      && r[i] in products
      && (ContainsIgnoringCase(r[i].name, query)
          || (r[i].description.Some? && ContainsIgnoringCase(r[i].description.value, query)))
    ensures skip == 0 && |Filter(products, MatchesQuery(query))| <= limit ==>
      forall i :: 0 <= i < |products| && MatchesQuery(query)(products[i]) ==> products[i] in r
  {
    Select(products, MatchesQuery(query), skip, limit)
  }

  /** An empty query matches every product. */
  lemma EmptyQueryMatchesAll(p: Product)
    ensures MatchesQuery("")(p)
  {
    assert IsPrefix(Lower(""), Lower(p.name));
  }

  /**
   * The stock after adding a signed change and clamping at zero: never
   * negative, never below the unclamped sum, and exactly the sum whenever
   * the sum is not negative.
   */
  function StockAfter(stock: int, change: int): (r: int)
    ensures r >= 0
    ensures r >= stock + change
    ensures r == stock + change || r == 0
    ensures stock + change >= 0 ==> r == stock + change
  {
    var added := stock + change;
    if added < 0 then 0 else added
  }

  /** Two adjustments compose into one as long as the first does not clamp. */
  lemma StockAfterComposes(stock: int, a: int, b: int)
    requires stock + a >= 0
    ensures StockAfter(StockAfter(stock, a), b) == StockAfter(stock, a + b)
  {
  }

  /**
   * Adds `change` to the stock of product `productId`, clamping at zero.
   * A missing product is an error and changes nothing; otherwise only that
   * product's stock changes.
   */
  method UpdateStock(db: Session, productId: Id, change: int) returns (r: Result<Product>)
    modifies db`products
    ensures Find(old(db.products), productId).None? ==>
      r == Failure(NotFound) && db.products == old(db.products)
    ensures Find(old(db.products), productId).Some? ==>
      var k := Find(old(db.products), productId).value;
      var before := old(db.products)[k];
      && db.products == old(db.products)[k := before.(stockQuantity := StockAfter(before.stockQuantity, change))]
      && r == Success(db.products[k])
  {
    var k := Find(db.products, productId);
    if k.None? {
      return Failure(NotFound);
    }
    var product := db.products[k.value];
    product := product.(stockQuantity := product.stockQuantity + change);
    if product.stockQuantity < 0 {
      product := product.(stockQuantity := 0);
    }
    db.products := db.products[k.value := product];
    r := Success(product);
  }
}
