/**
 * The administrator's product operations: the checks of product creation
 * and the field-by-field update of an existing product. The request arrives
 * with its sizes already parsed and the image upload already attempted;
 * both are inputs here.
 */
module CatalogAdmin {
  import opened Wrappers
  import opened Errors
  import opened Schema
  import opened Inventory

  /** The `sizes` request field after parsing: absent, not an array, or an array of entries. */
  datatype SizesField = Missing | NotAnArray | Array(entries: seq<SizeStock>)

  /** The uploaded image: no file attached, the hosted URL, or a failed upload. */
  datatype ImageUpload = NoFile | Uploaded(url: string) | UploadError

  /** `Product.findOne({name})` finds a product. */
  predicate NameInUse(cat: Catalog, name: string)
  {
    exists p :: p in cat && cat[p].name == name
  }

  /** A product other than `id` has the name. */
  predicate NameHeldByOther(cat: Catalog, name: string, id: Id)
  {
    exists p :: p in cat && p != id && cat[p].name == name
  }

  /** The sizes field is a non-empty array. */
  predicate SizesGiven(sizes: SizesField)
  {
    sizes.Array? && |sizes.entries| > 0
  }

  /**
   * Product creation, in the handler's order: every field present and
   * non-empty, the name unused, the sizes a non-empty array, the image
   * uploaded, and finally the schema rules. The fields arrive as multipart
   * form strings, so a price or rating of "0" is present (truthy); `None`
   * stands for an absent or empty field.
   */
  function NewProduct(cat: Catalog, name: string, description: string, price: Option<int>, rating: Option<int>,
                      image: ImageUpload, sizes: SizesField): (r: Result<Product, Error>)
    ensures r.Failure? <==>
      || name == "" || description == "" || price.None? || rating.None? || image.NoFile? || sizes.Missing?
      || NameInUse(cat, name) || !SizesGiven(sizes) || image.UploadError?
      || !ValidProduct(Product(name, description, price.value, rating.value, image.url, sizes.entries))
    ensures r.Failure? ==>
              r.error == (if name == "" || description == "" || price.None? || rating.None? || image.NoFile? || sizes.Missing?
                          then MissingFields
                          else if NameInUse(cat, name) then NameTaken
                          else if !SizesGiven(sizes) then InvalidSizes
                          else if image.UploadError? then UploadFailed
                          else SchemaViolation)
    ensures r.Success? ==>
      && r.value == Product(name, description, price.value, rating.value, image.url, sizes.entries)
      && ValidProduct(r.value)
      && !NameInUse(cat, name)
      && |r.value.sizes| > 0
  {
    if name == "" || description == "" || price.None? || rating.None? || image.NoFile? || sizes.Missing? then
      Failure(MissingFields)
    else if NameInUse(cat, name) then Failure(NameTaken)
    else if !SizesGiven(sizes) then Failure(InvalidSizes)
    else if image.UploadError? then Failure(UploadFailed)
    else
      var p := Product(name, description, price.value, rating.value, image.url, sizes.entries);
      if !ValidProduct(p) then Failure(SchemaViolation) else Success(p)
  }

  /** A price and a rating of 0 are present values: an empty catalog accepts such a product. */
  lemma NewProductAcceptsZero()
    ensures NewProduct(map[], "Cap", "wool", Some(0), Some(0), Uploaded("cap.png"), Array([SizeStock("M", 1)]))
         == Success(Product("Cap", "wool", 0, 0, "cap.png", [SizeStock("M", 1)]))
  {
  }

  /** Storing a created product under an unused id keeps the catalog valid. */
  lemma NewProductKeepsValid(cat: Catalog, id: Id, name: string, description: string, price: Option<int>,
                             rating: Option<int>, image: ImageUpload, sizes: SizesField)
    requires CatalogValid(cat) && id !in cat
    requires NewProduct(cat, name, description, price, rating, image, sizes).Success?
    ensures CatalogValid(cat[id := NewProduct(cat, name, description, price, rating, image, sizes).value])
  {
    var cat' := cat[id := NewProduct(cat, name, description, price, rating, image, sizes).value];
    forall p, p' | p in cat' && p' in cat' && p != p'
      ensures cat'[p].name != cat'[p'].name
    {
      if p == id { assert cat[p'].name == cat'[p'].name; }
      if p' == id { assert cat[p].name == cat'[p].name; }
    }
  }

  /**
   * The field updates: name and description only when non-empty, price and
   * rating whenever they are given, 0 included.
   */
  function Patch(x: Product, name: string, description: string, price: Option<int>, rating: Option<int>): (y: Product)
    ensures y.name == (if name != "" then name else x.name)
    ensures y.description == (if description != "" then description else x.description)
    ensures y.price == (if price.Some? then price.value else x.price)
    ensures y.rating == (if rating.Some? then rating.value else x.rating)
    ensures y.image == x.image && y.sizes == x.sizes
  {
    var y := if name != "" then x.(name := name) else x;
    var y := if description != "" then y.(description := description) else y;
    var y := if price.Some? then y.(price := price.value) else y;
    if rating.Some? then y.(rating := rating.value) else y
  }

  /** A patch with every field absent is the identity. */
  lemma PatchNothing(x: Product)
    ensures Patch(x, "", "", None, None) == x
  {
  }

  /** Applying a patch twice is applying it once. */
  lemma PatchIdempotent(x: Product, name: string, description: string, price: Option<int>, rating: Option<int>)
    ensures Patch(Patch(x, name, description, price, rating), name, description, price, rating)
         == Patch(x, name, description, price, rating)
  {
  }

  /**
   * The product an update would store: the field patch, the sizes replaced
   * wholesale when an array is given, and the image replaced when one was
   * uploaded.
   */
  function Updated(x: Product, name: string, description: string, price: Option<int>, rating: Option<int>,
                   sizes: SizesField, image: ImageUpload): (y: Product)
    ensures y.(sizes := x.sizes, image := x.image) == Patch(x, name, description, price, rating)
    ensures y.sizes == (if sizes.Array? then sizes.entries else x.sizes)
    ensures y.image == (if image.Uploaded? then image.url else x.image)
  {
    var y := Patch(x, name, description, price, rating);
    var y := if sizes.Array? then y.(sizes := sizes.entries) else y;
    if image.Uploaded? then y.(image := image.url) else y
  }

  /**
   * Product update, in the handler's order: an unknown id is NotFound; the
   * field patch; sizes, when given, must be a non-empty array and then replace
   * the old list wholesale; a failed upload is refused and a successful one
   * replaces the image; the result must satisfy the schema; and the unique
   * name index refuses a name another product holds. An update that passes
   * all of these is stored.
   */
  function UpdatedProduct(cat: Catalog, id: Id, name: string, description: string, price: Option<int>,
                          rating: Option<int>, sizes: SizesField, image: ImageUpload): (r: Result<Product, Error>)
    ensures id !in cat ==> r == Failure(NotFound)
    ensures id in cat ==>
      var y := Updated(cat[id], name, description, price, rating, sizes, image);
      && (r.Failure? <==>
            (!sizes.Missing? && !SizesGiven(sizes)) || image.UploadError? || !ValidProduct(y) || NameHeldByOther(cat, y.name, id))
      && (r.Failure? ==>
            r.error == (if !sizes.Missing? && !SizesGiven(sizes) then InvalidSizes
                        else if image.UploadError? then UploadFailed
                        else if !ValidProduct(y) then SchemaViolation
                        else NameTaken))
      && (r.Success? ==> r.value == y)
    ensures r.Success? ==>
      && id in cat
      && r.value.(sizes := cat[id].sizes, image := cat[id].image) == Patch(cat[id], name, description, price, rating)
      && r.value.sizes == (if sizes.Missing? then cat[id].sizes else sizes.entries)
      && r.value.image == (if image.Uploaded? then image.url else cat[id].image)
      && ValidProduct(r.value)
      && !NameHeldByOther(cat, r.value.name, id)
  {
    if id !in cat then Failure(NotFound)
    else if !sizes.Missing? && !SizesGiven(sizes) then Failure(InvalidSizes)
    else if image.UploadError? then Failure(UploadFailed)
    else
      var y := Updated(cat[id], name, description, price, rating, sizes, image);
      if !ValidProduct(y) then Failure(SchemaViolation)
      else if NameHeldByOther(cat, y.name, id) then Failure(NameTaken)
      else Success(y)
  }

  /** A successful update keeps the catalog valid. */
  lemma UpdatedProductKeepsValid(cat: Catalog, id: Id, name: string, description: string, price: Option<int>,
                                 rating: Option<int>, sizes: SizesField, image: ImageUpload)
    requires CatalogValid(cat)
    requires UpdatedProduct(cat, id, name, description, price, rating, sizes, image).Success?
    ensures CatalogValid(cat[id := UpdatedProduct(cat, id, name, description, price, rating, sizes, image).value])
  {
    var y := UpdatedProduct(cat, id, name, description, price, rating, sizes, image).value;
    var cat' := cat[id := y];
    forall p, p' | p in cat' && p' in cat' && p != p'
      ensures cat'[p].name != cat'[p'].name
    {
      if p == id { assert !(p' in cat && p' != id && cat[p'].name == y.name); }
      if p' == id { assert !(p in cat && p != id && cat[p].name == y.name); }
    }
  }

  /** Repeating a successful update returns the product the first one stored. */
  lemma UpdatedProductIdempotent(cat: Catalog, id: Id, name: string, description: string, price: Option<int>,
                                 rating: Option<int>, sizes: SizesField, image: ImageUpload)
    requires UpdatedProduct(cat, id, name, description, price, rating, sizes, image).Success?
    ensures
      var cat' := cat[id := UpdatedProduct(cat, id, name, description, price, rating, sizes, image).value];
      UpdatedProduct(cat', id, name, description, price, rating, sizes, image) == Success(cat'[id])
  {
    var y := UpdatedProduct(cat, id, name, description, price, rating, sizes, image).value;
    var cat' := cat[id := y];
    assert !NameHeldByOther(cat', y.name, id) by {
      forall p | p in cat' && p != id ensures cat'[p].name != y.name {
        assert cat'[p] == cat[p];
      }
    }
  }
}
