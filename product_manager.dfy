/** `ProductManager`: a product store over one backing file. Every operation reads
    the whole list from the file; the mutators compute a new list and write the
    whole list back. The file is modelled by two fields: whether it exists, and
    the list it holds. */
module ProductManagement {
  import opened JsValues
  import opened Catalog

  class ProductManager {
    /** Where the backing file lives; kept, never interpreted. */
    const path: string
    /** Whether the backing file exists. */
    var fileExists: bool
    /** The list the backing file holds, when it exists. */
    var fileContents: seq<Product>

    /** A manager for `path`, over whatever the file system holds there. */
    constructor(path: string, fileExists: bool, fileContents: seq<Product>)
      ensures this.path == path
      ensures this.fileExists == fileExists && this.fileContents == fileContents
    {
      this.path := path;
      this.fileExists := fileExists;
      this.fileContents := fileContents;
    }

    /** `getProducts()`: the stored list, or the empty list when there is no file. */
    function GetProducts(): (products: seq<Product>)
      reads this
      ensures !fileExists ==> products == []
      ensures fileExists ==> products == fileContents
    {
      if fileExists then fileContents else []
    }

    /** Overwrites the backing file with `products`, creating it if need be. */
    method WriteFile(products: seq<Product>)
      modifies this
      ensures fileExists && fileContents == products
    {
      fileExists := true;
      fileContents := products;
    }

    /** `addProduct(title, description, price, thumbnail, code, stock)` */
    method AddProduct(title: string, description: string, price: int,
                      thumbnail: string, code: string, stock: int) returns (r: AddOutcome)
      modifies this
      ensures r == MissingField <==> !AllFieldsTruthy(title, description, price, thumbnail, code, stock)
      ensures r == DuplicateCode <==>
                AllFieldsTruthy(title, description, price, thumbnail, code, stock)
                && HasCode(old(GetProducts()), Trim(code))
      ensures r != Added ==> fileExists == old(fileExists) && fileContents == old(fileContents)
      ensures r == Added ==> fileExists
      ensures r == Added ==>
                var before := old(GetProducts());
                && |GetProducts()| == |before| + 1
                && GetProducts()[..|before|] == before
                && var p := GetProducts()[|before|];
                && p.id == NextId(before)
                && p.title == Trim(title) && p.description == Trim(description)
                && p.thumbnail == Trim(thumbnail) && p.code == Trim(code)
                && p.price == price && p.stock == stock
      ensures r == Added && old(GetProducts()) == [] ==> GetProducts()[0].id == Num(1)
      ensures r == Added && DistinctCodes(old(GetProducts())) ==> DistinctCodes(GetProducts())
    {
      var products := GetProducts();
      if !AllFieldsTruthy(title, description, price, thumbnail, code, stock) {
        return MissingField;
      } else if HasCode(products, Trim(code)) {
        return DuplicateCode;
      }
      var product := NewProduct(products, title, description, price, thumbnail, code, stock);
      if DistinctCodes(products) {
        AppendKeepsCodesDistinct(products, product);
      }
      products := products + [product];
      WriteFile(products);
      r := Added;
    }

    /** `getProductById(id)`: the first product whose id loosely equals `id`, or
        the not-found marker. Reading only, it changes nothing. */
    function GetProductById(id: Value): (r: Lookup)
      reads this
      ensures r == NotFound <==>
                forall i :: 0 <= i < |GetProducts()| ==> !LooseEq(GetProducts()[i].id, id)
      ensures r.Found? ==> r.product == GetProducts()[FindIndex(GetProducts(), id)]
    {
      FindAgreesWithFindIndex(GetProducts(), id);
      Find(GetProducts(), id)
    }

    /** `updateProductById(id, data)` */
    method UpdateProductById(id: Value, data: Patch) returns (r: UpdateOutcome)
      modifies this
      ensures var k := FindIndex(old(GetProducts()), id);
              && (r == NoSuchProduct <==> k == -1)
              && (r == IdChangeRejected <==> k != -1 && ChangesId(data, id))
      ensures !r.Updated? ==> fileExists == old(fileExists) && fileContents == old(fileContents)
      ensures r.Updated? ==>
                var before := old(GetProducts());
                var k := FindIndex(before, id);
                && 0 <= k < |before|
                && r.product == Merge(before[k], data)
                && fileExists
                && GetProducts() == before[k := r.product]
    {
      var products := GetProducts();
      var productIndex := FindIndex(products, id);
      if productIndex == -1 {
        return NoSuchProduct;
      }
      if ChangesId(data, id) {
        return IdChangeRejected;
      }
      var updatedProduct := Merge(products[productIndex], data);
      products := products[productIndex := updatedProduct];
      WriteFile(products);
      r := Updated(updatedProduct);
    }

    /** `deleteProductById(id)`: keeps the products whose id does not loosely equal
        `id` and rewrites the file, even when nothing matched. */
    method DeleteProductById(id: Value)
      modifies this
      ensures fileExists
      ensures GetProducts() == RemoveById(old(GetProducts()), id)
      ensures |GetProducts()| <= |old(GetProducts())|
      ensures (forall i :: 0 <= i < |old(GetProducts())| ==> !LooseEq(old(GetProducts())[i].id, id))
                ==> GetProducts() == old(GetProducts())
    {
      var products := GetProducts();
      var newProductsArray := RemoveById(products, id);
      WriteFile(newProductsArray);
    }
  }
}
