/** The product records and the computations `ProductManager` performs on the
    loaded list between reading and rewriting its backing file: field validation,
    the code check, id assignment, `find`, `findIndex`, the shallow merge of an
    update and the `filter` of a delete. */
module Catalog {
  import opened JsValues

  /** One stored product. `id` is a number or a string (see `NextId`); the other
      fields keep the types `addProduct` gives them. */
  datatype Product = Product(
    id: Value,
    title: string,
    description: string,
    price: int,
    thumbnail: string,
    code: string,
    stock: int)

  /** The `data` argument of an update: every field it carries overrides the
      product's field of the same name. */
  datatype Patch = Patch(
    id: Option<Value>,
    title: Option<string>,
    description: Option<string>,
    price: Option<int>,
    thumbnail: Option<string>,
    code: Option<string>,
    stock: Option<int>)

  /** What `getProductById` returns: the product, or the `{error: "Product Not Found"}` marker. */
  datatype Lookup = Found(product: Product) | NotFound

  /** What `addProduct` does: store the product, or log one of its two errors. */
  datatype AddOutcome = Added | MissingField | DuplicateCode

  /** What `updateProductById` returns: the merged product, the not-found marker,
      or the error it throws (and catches) when the patch would change the id. */
  datatype UpdateOutcome = Updated(product: Product) | NoSuchProduct | IdChangeRejected

  /** The validation of `addProduct`: every argument is truthy, so no text is
      empty and neither price nor stock is zero. Text is checked before trimming. */
  function AllFieldsTruthy(title: string, description: string, price: int,
                           thumbnail: string, code: string, stock: int): (ok: bool)
    ensures ok <==> "" !in [title, description, thumbnail, code] && price != 0 && stock != 0
  {
    Truthy(Str(title)) && Truthy(Str(description)) && Truthy(Num(price))
    && Truthy(Str(thumbnail)) && Truthy(Str(code)) && Truthy(Num(stock))
  }

  /** `products.some(product => product.code === code)` */
  function HasCode(products: seq<Product>, code: string): (b: bool)
    ensures b <==> exists i :: 0 <= i < |products| && products[i].code == code
  {
    if products == [] then false
    else products[0].code == code || HasCode(products[1..], code)
  }

  /** The id `addProduct` gives a new product: 1 for the first one, and otherwise
      the last product's code followed by the digit 1, because `code + 1` on a
      string code is string concatenation. */
  function NextId(products: seq<Product>): (id: Value)
    ensures id.Num? <==> products == []
    ensures id.Num? ==> id.n == 1
    ensures id.Str? ==> |id.s| == |products[|products| - 1].code| + 1
    ensures id.Str? ==> id.s[..|id.s| - 1] == products[|products| - 1].code && id.s[|id.s| - 1] == '1'
  {
    if |products| == 0 then Num(1) else Str(products[|products| - 1].code + "1")
  }

  /** The record `addProduct` appends: text fields trimmed, numbers as given. */
  function NewProduct(products: seq<Product>, title: string, description: string, price: int,
                      thumbnail: string, code: string, stock: int): (p: Product)
    ensures p.id == NextId(products)
    ensures Trim(p.title) == p.title && Trim(p.description) == p.description
    ensures Trim(p.thumbnail) == p.thumbnail && Trim(p.code) == p.code
    ensures p.title == Trim(title) && p.description == Trim(description)
    ensures p.thumbnail == Trim(thumbnail) && p.code == Trim(code)
    ensures p.price == price && p.stock == stock
  {
    TrimIdempotent(title);
    TrimIdempotent(description);
    TrimIdempotent(thumbnail);
    TrimIdempotent(code);
    Product(NextId(products), Trim(title), Trim(description), price, Trim(thumbnail), Trim(code), stock)
  }

  /** When the last stored code starts with a character that cannot begin a
      number (not white space, a digit, a sign or a decimal point), the next id is a string that loosely equals no number,
      so the product added second is found by no numeric id. */
  lemma NextIdMatchesNoNumber(products: seq<Product>, n: int)
    requires products != []
    requires var c := products[|products| - 1].code;
             && c != [] && !IsWhitespace(c[0]) && !IsDigit(c[0])
             && c[0] != '-' && c[0] != '+' && c[0] != '.'
    ensures !LooseEq(NextId(products), Num(n))
  {
    var c := products[|products| - 1].code;
    var s := c + "1";
    assert s[0] == c[0] && s[|s| - 1] == '1';
    assert TrimmedFrom(s, s, 0);
    TrimUnique(s, s, 0);
    assert !AllDigits(s) && s[0] != '-' && s[0] != '+';
    assert StringToNumber(s) == None;
  }

  /** When the last stored code is all digits (or empty, as a blank code is
      stored), the next id is those digits followed by 1, and a number finds it:
      code "12" gives id "121", which the number 121 matches; code "" gives "1". */
  lemma NextIdOfDigitCode(products: seq<Product>)
    requires products != []
    requires AllDigits(products[|products| - 1].code)
    ensures var c := products[|products| - 1].code;
            && AllDigits(c + "1")
            && DecimalValue(c + "1") == 10 * DecimalValue(c) + 1
            && LooseEq(NextId(products), Num(DecimalValue(c + "1")))
  {
    var c := products[|products| - 1].code;
    var s := c + "1";
    assert AllDigits(s);
    assert s[..|s| - 1] == c;
    assert !IsWhitespace(s[0]) && !IsWhitespace(s[|s| - 1]);
    assert TrimmedFrom(s, s, 0);
    TrimUnique(s, s, 0);
    assert StringToNumber(s) == Some(DecimalValue(s));
  }

  /** No two stored products share a code. */
  predicate DistinctCodes(products: seq<Product>) {
    forall i, j :: 0 <= i < j < |products| ==> products[i].code != products[j].code
  }

  /** `products.findIndex(product => product.id == id)`: the first index whose id
      loosely equals `id`, or -1. */
  function FindIndex(products: seq<Product>, id: Value): (k: int)
    ensures -1 <= k < |products|
    ensures k == -1 <==> forall i :: 0 <= i < |products| ==> !LooseEq(products[i].id, id)
    ensures k != -1 ==> LooseEq(products[k].id, id)
    ensures k != -1 ==> forall i :: 0 <= i < k ==> !LooseEq(products[i].id, id)
  {
    if products == [] then -1
    else if LooseEq(products[0].id, id) then 0
    else
      var k := FindIndex(products[1..], id);
      if k == -1 then -1 else k + 1
  }

  /** `products.find(product => product.id == id) || {error: "Product Not Found"}` */
  function Find(products: seq<Product>, id: Value): (r: Lookup)
    ensures r == NotFound <==> forall i :: 0 <= i < |products| ==> !LooseEq(products[i].id, id)
    ensures r.Found? ==> r.product in products && LooseEq(r.product.id, id)
  {
    if products == [] then NotFound
    else if LooseEq(products[0].id, id) then Found(products[0])
    else Find(products[1..], id)
  }

  /** `find` returns the record at the index `findIndex` reports. */
  lemma {:induction false} FindAgreesWithFindIndex(products: seq<Product>, id: Value)
    ensures var k := FindIndex(products, id);
            Find(products, id) == if k == -1 then NotFound else Found(products[k])
  {
    if products != [] && !LooseEq(products[0].id, id) {
      FindAgreesWithFindIndex(products[1..], id);
    }
  }

  /** The guard `data.id && data.id !== id`: the patch carries a truthy id that is
      not strictly the id the caller asked for. */
  function ChangesId(data: Patch, id: Value): (changes: bool)
    ensures changes ==> data.id.Some? && data.id.value != id
    ensures !changes && data.id.Some? ==> data.id.value == id || !Truthy(data.id.value)
    ensures data.id.Some? && !Truthy(data.id.value) ==> !changes
  {
    data.id.Some? && Truthy(data.id.value) && !StrictEq(data.id.value, id)
  }

  /** `{...product, ...data}`: every field present in the patch overrides. */
  function Merge(product: Product, data: Patch): (r: Product)
    ensures data.id.Some? ==> r.id == data.id.value
    ensures data.id.None? ==> r.id == product.id
    ensures data.title.Some? ==> r.title == data.title.value
    ensures data.title.None? ==> r.title == product.title
    ensures data.description.Some? ==> r.description == data.description.value
    ensures data.description.None? ==> r.description == product.description
    ensures data.price.Some? ==> r.price == data.price.value
    ensures data.price.None? ==> r.price == product.price
    ensures data.thumbnail.Some? ==> r.thumbnail == data.thumbnail.value
    ensures data.thumbnail.None? ==> r.thumbnail == product.thumbnail
    ensures data.code.Some? ==> r.code == data.code.value
    ensures data.code.None? ==> r.code == product.code
    ensures data.stock.Some? ==> r.stock == data.stock.value
    ensures data.stock.None? ==> r.stock == product.stock
  {
    Product(
      if data.id.Some? then data.id.value else product.id,
      if data.title.Some? then data.title.value else product.title,
      if data.description.Some? then data.description.value else product.description,
      if data.price.Some? then data.price.value else product.price,
      if data.thumbnail.Some? then data.thumbnail.value else product.thumbnail,
      if data.code.Some? then data.code.value else product.code,
      if data.stock.Some? then data.stock.value else product.stock)
  }

  /** `products.filter(product => product.id != id)` */
  function RemoveById(products: seq<Product>, id: Value): (r: seq<Product>)
    ensures |r| <= |products|
    ensures forall p :: p in r <==> p in products && !LooseEq(p.id, id)
    ensures (forall i :: 0 <= i < |products| ==> !LooseEq(products[i].id, id)) ==> r == products
  {
    if products == [] then []
    else
      var rest := RemoveById(products[1..], id);
      if LooseEq(products[0].id, id) then rest else [products[0]] + rest
  }

  /** `a` is `b` with some elements left out and the rest in their order. */
  predicate IsSubsequence(a: seq<Product>, b: seq<Product>)
    decreases |b|
  {
    if a == [] then true
    else if b == [] then false
    else if a[0] == b[0] then IsSubsequence(a[1..], b[1..])
    else IsSubsequence(a, b[1..])
  }

  /** A delete keeps the surviving records in their original order. */
  lemma {:induction false} RemoveByIdKeepsOrder(products: seq<Product>, id: Value)
    ensures IsSubsequence(RemoveById(products, id), products)
  {
    if products != [] {
      RemoveByIdKeepsOrder(products[1..], id);
      var r := RemoveById(products, id);
      if LooseEq(products[0].id, id) {
        assert r == RemoveById(products[1..], id);
        if r != [] {
          assert r[0] in r;
          assert r[0] != products[0];
        }
      } else {
        assert r[1..] == RemoveById(products[1..], id);
      }
    }
  }

  /** How many records have an id that loosely equals `id`. */
  function CountMatching(products: seq<Product>, id: Value): (n: nat)
    ensures n <= |products|
    ensures n == 0 <==> forall i :: 0 <= i < |products| ==> !LooseEq(products[i].id, id)
  {
    if products == [] then 0
    else (if LooseEq(products[0].id, id) then 1 else 0) + CountMatching(products[1..], id)
  }

  /** A delete drops exactly as many records as match the id. */
  lemma {:induction false} RemoveByIdDropsOnlyMatches(products: seq<Product>, id: Value)
    ensures |RemoveById(products, id)| == |products| - CountMatching(products, id)
  {
    if products != [] {
      RemoveByIdDropsOnlyMatches(products[1..], id);
    }
  }

  /** Deleting twice by the same id is deleting once. */
  lemma RemoveByIdIdempotent(products: seq<Product>, id: Value)
    ensures RemoveById(RemoveById(products, id), id) == RemoveById(products, id)
  {
  }

  /** After a delete, no record is found by the deleted id. */
  lemma FindAfterRemove(products: seq<Product>, id: Value)
    ensures Find(RemoveById(products, id), id) == NotFound
  {
  }

  /** A delete keeps stored codes distinct. */
  lemma {:induction false} RemoveKeepsCodesDistinct(products: seq<Product>, id: Value)
    requires DistinctCodes(products)
    ensures DistinctCodes(RemoveById(products, id))
  {
    if products != [] {
      var tail := products[1..];
      assert DistinctCodes(tail) by {
        forall i, j | 0 <= i < j < |tail| ensures tail[i].code != tail[j].code {
          assert tail[i] == products[i + 1] && tail[j] == products[j + 1];
        }
      }
      RemoveKeepsCodesDistinct(tail, id);
      var rest := RemoveById(tail, id);
      if !LooseEq(products[0].id, id) {
        var r := [products[0]] + rest;
        forall j | 0 < j < |r| ensures r[0].code != r[j].code {
          assert r[j] == rest[j - 1] && rest[j - 1] in tail;
        }
      }
    }
  }

  /** Appending a product whose code is not yet stored keeps codes distinct. */
  lemma AppendKeepsCodesDistinct(products: seq<Product>, p: Product)
    requires DistinctCodes(products)
    requires !HasCode(products, p.code)
    ensures DistinctCodes(products + [p])
  {
  }

  /** An update keeps codes distinct when its patch leaves the code alone or
      brings a code no other record has. */
  lemma UpdateKeepsCodesDistinct(products: seq<Product>, k: nat, data: Patch)
    requires DistinctCodes(products) && k < |products|
    requires data.code.None? || forall i :: 0 <= i < |products| && i != k ==> products[i].code != data.code.value
    ensures DistinctCodes(products[k := Merge(products[k], data)])
  {
  }

  /** An update does not check codes: patching one record with another's code
      leaves two records with the same code. */
  lemma UpdateMayDuplicateCode(a: Product, b: Product, data: Patch)
    requires a.code != b.code
    requires data.code == Some(a.code)
    ensures DistinctCodes([a, b])
    ensures !DistinctCodes([a, b][1 := Merge(b, data)])
  {
    var after := [a, b][1 := Merge(b, data)];
    assert after[0].code == after[1].code;
  }

  /** An empty patch changes nothing, and applying a patch twice is applying it once. */
  lemma MergeLaws(product: Product, data: Patch)
    ensures Merge(product, Patch(None, None, None, None, None, None, None)) == product
    ensures Merge(Merge(product, data), data) == Merge(product, data)
  {
  }

  /** Repeating an update whose patch leaves the id alone, or sets it to the very
      id asked for, finds the same record again and stores the same merge: the
      update is idempotent. */
  lemma UpdateIdempotent(products: seq<Product>, id: Value, data: Patch)
    requires FindIndex(products, id) != -1
    requires data.id.None? || data.id == Some(id)
    ensures var k := FindIndex(products, id);
            var once := products[k := Merge(products[k], data)];
            && FindIndex(once, id) == k
            && once[k := Merge(once[k], data)] == once
  {
  }
}
