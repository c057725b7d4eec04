/** The admin actions on products of `src/app/admin/_actions/products.ts`: validate
    the creation form, write the product's file and image and store the record;
    switch availability; delete the record and both files. The two random UUIDs
    that name the stored files are inputs. */
module ProductActions {
  import opened Common
  import opened FormFields
  import opened Db
  import opened Text

  const RequiredMessage: string := "Required"
  /** The schema library's message for a refinement given without one. */
  const InvalidInputMessage: string := "Invalid input"

  /** An uploaded file: its name, MIME type and bytes (its size is their number). */
  datatype Upload = Upload(name: string, mimeType: string, content: seq<bv8>)

  /** The submitted form; an upload is absent when the field is not a file. */
  datatype ProductForm = ProductForm(
    name: Option<string>,
    description: Option<string>,
    priceInCents: JsNumber,
    file: Option<Upload>,
    image: Option<Upload>)

  datatype Field = NameField | DescriptionField | PriceField | FileField | ImageField

  datatype ProductData = ProductData(name: string, description: string, priceInCents: int, file: Upload, image: Upload)

  /** `fileScehma.refine(file => file.size > 0, 'Required')`. */
  function CheckFile(f: Option<Upload>): (r: Checked<Upload>)
    ensures r.Pass? <==> f.Some? && |f.value.content| > 0
    ensures r.Pass? ==> r.value == f.value
  {
    match f
    case None => Fail(Refinement(RequiredMessage))
    case Some(u) => if |u.content| > 0 then Pass(u) else Fail(Refinement(RequiredMessage))
  }

  /** `imageScehma.refine(file => file.size > 0, 'Required')`: a non-empty upload whose
      MIME type starts with `image/`. */
  function CheckImage(f: Option<Upload>): (r: Checked<Upload>)
    ensures r.Pass? <==> f.Some? && |f.value.content| > 0 && "image/" <= f.value.mimeType
    ensures r.Pass? ==> r.value == f.value
  {
    match f
    case None => Fail(Refinement(RequiredMessage))
    case Some(u) =>
      if !(|u.content| == 0 || "image/" <= u.mimeType) then Fail(Refinement(InvalidInputMessage))
      else if |u.content| > 0 then Pass(u)
      else Fail(Refinement(RequiredMessage))
  }

  /** The form `addSchema` accepts. */
  predicate Acceptable(form: ProductForm)
  {
    && form.name.Some? && Utf16Length(form.name.value) >= 3
    && form.description.Some? && Utf16Length(form.description.value) >= 10
    && form.priceInCents.Integral? && form.priceInCents.value >= 1
    && form.file.Some? && |form.file.value.content| > 0
    && form.image.Some? && |form.image.value.content| > 0 && "image/" <= form.image.value.mimeType
  }

  /** `addSchema.safeParse`. */
  function Validate(form: ProductForm): (r: Validation<Field, ProductData>)
    ensures r.Valid? <==> Acceptable(form)
    ensures r.Valid? ==> r.data == ProductData(form.name.value, form.description.value,
                                               form.priceInCents.value, form.file.value, form.image.value)
    ensures r.Invalid? ==> r.errors != map[]
  {
    var name := StringAtLeast(form.name, 3);
    var description := StringAtLeast(form.description, 10);
    var price := IntAtLeast(form.priceInCents, 1);
    var file := CheckFile(form.file);
    var image := CheckImage(form.image);
    var errors :=
      Note(Note(Note(Note(Note(map[], NameField, name), DescriptionField, description),
        PriceField, price), FileField, file), ImageField, image);
    if errors == map[] then
      assert NameField !in errors && DescriptionField !in errors && PriceField !in errors;
      assert FileField !in errors && ImageField !in errors;
      Valid(ProductData(name.value, description.value, price.value, file.value, image.value))
    else
      assert NameField in errors || DescriptionField in errors || PriceField in errors
          || FileField in errors || ImageField in errors;
      Invalid(errors)
  }

  /** Errors are reported exactly for the failing fields, and the image's two
      refinements speak in order: a non-empty non-image upload gets the default
      "Invalid input", an empty one "Required". */
  lemma ErrorsNameFailingFields(form: ProductForm)
    ensures var r := Validate(form);
      r.Invalid? ==>
        && (NameField in r.errors <==> StringAtLeast(form.name, 3).Fail?)
        && (DescriptionField in r.errors <==> StringAtLeast(form.description, 10).Fail?)
        && (PriceField in r.errors <==> IntAtLeast(form.priceInCents, 1).Fail?)
        && (FileField in r.errors <==> CheckFile(form.file).Fail?)
        && (ImageField in r.errors <==> CheckImage(form.image).Fail?)
    ensures form.image.Some? && |form.image.value.content| > 0 && !("image/" <= form.image.value.mimeType) ==>
      Validate(form).Invalid? && Validate(form).errors[ImageField] == Refinement(InvalidInputMessage)
    ensures form.image.Some? && |form.image.value.content| == 0 ==>
      Validate(form).Invalid? && Validate(form).errors[ImageField] == Refinement(RequiredMessage)
    ensures form.priceInCents == Integral(0) ==>
      Validate(form).Invalid? && Validate(form).errors[PriceField] == BelowMinimum
  {
  }

  /** `products/<uuid>-<file name>`, the stored file's path. */
  function FilePath(uuid: string, fileName: string): string
  {
    "products/" + uuid + "-" + fileName
  }

  /** `/products/<uuid>-<image name>`, the image's URL path. */
  function ImagePath(uuid: string, imageName: string): string
  {
    "/products/" + uuid + "-" + imageName
  }

  /** Where an image path is on disk: under `public`. */
  function PublicPath(imagePath: string): string
  {
    "public" + imagePath
  }

  /** The product file and the image never share a path on disk. */
  lemma FileAndImagePathsDiffer(fileUuid: string, fileName: string, imageUuid: string, imageName: string)
    ensures FilePath(fileUuid, fileName) != PublicPath(ImagePath(imageUuid, imageName))
  {
    assert FilePath(fileUuid, fileName)[1] == 'r';
    assert PublicPath(ImagePath(imageUuid, imageName))[1] == 'u';
  }

  /** The middle of a concatenation is the middle part. */
  lemma MiddleOf(prefix: string, middle: string, suffix: string)
    ensures (prefix + middle + suffix)[|prefix|..|prefix| + |middle|] == middle
  {
  }

  /** Two stored files named with different UUIDs of the same length never share a
      path, whatever the uploaded names; the same holds for images. */
  lemma DistinctUuidsDistinctPaths(u1: string, u2: string, name1: string, name2: string)
    requires |u1| == |u2| && u1 != u2
    ensures FilePath(u1, name1) != FilePath(u2, name2)
    ensures ImagePath(u1, name1) != ImagePath(u2, name2)
  {
    MiddleOf("products/", u1, "-" + name1);
    MiddleOf("products/", u2, "-" + name2);
    assert FilePath(u1, name1) == "products/" + u1 + ("-" + name1);
    assert FilePath(u2, name2) == "products/" + u2 + ("-" + name2);
    MiddleOf("/products/", u1, "-" + name1);
    MiddleOf("/products/", u2, "-" + name2);
    assert ImagePath(u1, name1) == "/products/" + u1 + ("-" + name1);
    assert ImagePath(u2, name2) == "/products/" + u2 + ("-" + name2);
  }

  /** The record `db.product.create` stores: never available at first. */
  function NewProduct(d: ProductData, fileUuid: string, imageUuid: string): Product
  {
    Product(
      name := d.name,
      description := d.description,
      priceInCents := d.priceInCents,
      filePath := FilePath(fileUuid, d.file.name),
      imagePath := ImagePath(imageUuid, d.image.name),
      isAvailableForPurchase := false)
  }

  /** `addProduct`: on refusal return the field errors and write nothing; otherwise
      write the file, then the image, then store an unavailable product. */
  method AddProduct(db: Store, form: ProductForm, fileUuid: string, imageUuid: string)
    returns (errors: Option<map<Field, Issue>>)
    requires db.Valid()
    modifies db
    ensures db.Valid()
    ensures Validate(form).Invalid? ==> errors == Some(Validate(form).errors) && unchanged(db)
    ensures Validate(form).Valid? ==>
      var d := Validate(form).data;
      var p := NewProduct(d, fileUuid, imageUuid);
      && errors.None?
      && db.files == old(db.files)[p.filePath := d.file.content][PublicPath(p.imagePath) := d.image.content]
      && db.products == old(db.products)[old(db.nextId) := p]
      && old(db.nextId) !in old(db.products)
      && db.nextId == old(db.nextId) + 1
      && db.users == old(db.users) && db.discountCodes == old(db.discountCodes)
      && db.downloadVerifications == old(db.downloadVerifications)
  {
    var result := Validate(form);
    if result.Invalid? {
      return Some(result.errors);
    }
    var d := result.data;
    var filePath := FilePath(fileUuid, d.file.name);
    db.files := db.files[filePath := d.file.content];
    var imagePath := ImagePath(imageUuid, d.image.name);
    db.files := db.files[PublicPath(imagePath) := d.image.content];
    ghost var bound := db.nextId;
    db.products := db.products[db.nextId := NewProduct(d, fileUuid, imageUuid)];
    db.nextId := db.nextId + 1;
    forall e | e in db.users ensures OrderIdsBelow(db.users[e].orders, db.nextId) {
      assert OrderIdsBelow(db.users[e].orders, bound);
    }
    errors := None;
  }

  /** `toggleProductAvailability`: sets only `isAvailableForPurchase`. An unknown id
      makes the update fail and nothing changes. */
  method ToggleProductAvailability(db: Store, id: Id, isAvailableForPurchase: bool) returns (found: bool)
    requires db.Valid()
    modifies db
    ensures db.Valid()
    ensures found == (id in old(db.products))
    ensures !found ==> unchanged(db)
    ensures found ==> db.products == old(db.products)[id := old(db.products)[id].(isAvailableForPurchase := isAvailableForPurchase)]
    ensures db.users == old(db.users) && db.discountCodes == old(db.discountCodes) && db.nextId == old(db.nextId)
    ensures db.downloadVerifications == old(db.downloadVerifications) && db.files == old(db.files)
  {
    found := id in db.products;
    if found {
      db.products := db.products[id := db.products[id].(isAvailableForPurchase := isAvailableForPurchase)];
    }
  }

  /** How `deleteProduct` ends. */
  datatype DeleteOutcome = Deleted | RecordNotFound | UnlinkFailed(path: string)

  /** `deleteProduct`: remove the record, then unlink its file, then its image. An
      unknown id changes nothing; a missing file stops the action after the record
      is gone, leaving the rest on disk. */
  method DeleteProduct(db: Store, id: Id) returns (outcome: DeleteOutcome)
    requires db.Valid()
    modifies db
    ensures db.Valid()
    ensures id !in old(db.products) ==> outcome == RecordNotFound && unchanged(db)
    ensures id in old(db.products) ==>
      var p := old(db.products)[id];
      var imageOnDisk := PublicPath(p.imagePath);
      && db.products == old(db.products) - {id}
      && (if p.filePath !in old(db.files) then
            outcome == UnlinkFailed(p.filePath) && db.files == old(db.files)
          else if imageOnDisk !in old(db.files) - {p.filePath} then
            outcome == UnlinkFailed(imageOnDisk) && db.files == old(db.files) - {p.filePath}
          else
            outcome == Deleted && db.files == old(db.files) - {p.filePath, imageOnDisk})
    ensures db.users == old(db.users) && db.discountCodes == old(db.discountCodes) && db.nextId == old(db.nextId)
    ensures db.downloadVerifications == old(db.downloadVerifications)
  {
    if id !in db.products {
      return RecordNotFound;
    }
    var p := db.products[id];
    db.products := db.products - {id};
    if p.filePath !in db.files {
      return UnlinkFailed(p.filePath);
    }
    db.files := db.files - {p.filePath};
    var imageOnDisk := PublicPath(p.imagePath);
    if imageOnDisk !in db.files {
      return UnlinkFailed(imageOnDisk);
    }
    db.files := db.files - {imageOnDisk};
    outcome := Deleted;
  }

  /** Adding a product and then deleting it: the delete finds the new record,
      unlinks exactly the two files the add wrote and ends with `Deleted`, leaving
      the products and the files as they were, when those two paths were free. */
  method AddThenDelete(db: Store, form: ProductForm, fileUuid: string, imageUuid: string)
    returns (outcome: DeleteOutcome)
    requires db.Valid()
    requires Acceptable(form)
    requires FilePath(fileUuid, form.file.value.name) !in db.files
    requires PublicPath(ImagePath(imageUuid, form.image.value.name)) !in db.files
    modifies db
    ensures db.Valid()
    ensures outcome == Deleted
    ensures db.products == old(db.products) && db.files == old(db.files)
    ensures db.nextId == old(db.nextId) + 1
    ensures db.users == old(db.users) && db.discountCodes == old(db.discountCodes)
    ensures db.downloadVerifications == old(db.downloadVerifications)
  {
    ghost var files0, products0 := db.files, db.products;
    var id := db.nextId;
    var errors := AddProduct(db, form, fileUuid, imageUuid);
    FileAndImagePathsDiffer(fileUuid, form.file.value.name, imageUuid, form.image.value.name);
    outcome := DeleteProduct(db, id);
    assert db.files == files0;
    assert db.products == products0;
  }

  /** Lengths are JavaScript's: two emoji (four UTF-16 units) are a long enough
      name, two ASCII letters are not. */
  lemma NameLengthInCodeUnits()
    ensures StringAtLeast(Some("\U{1F600}\U{1F600}"), 3).Pass?
    ensures StringAtLeast(Some("ab"), 3) == Fail(BelowMinimum)
  {
    assert Utf16Length("\U{1F600}\U{1F600}") == 4;
    assert Utf16Length("ab") == 2;
  }
}
