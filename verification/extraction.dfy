/** Field-by-field extraction from a rendered product page (the body of
    `parse` after the pacing sleep).

    The browser is abstracted away: a `Page` records, for every field, what
    the lookup the spider performs for that field yields: nothing (the
    element is missing or reading it raised) or the text / `src` attribute
    read from it. Each field is attempted on its own, so a failed lookup only
    blanks its own field. */
module Extraction {
  import opened Wrappers
  import Text

  /** Outcome of looking up one element and reading one value from it. */
  datatype Lookup = Failed | Found(value: string)

  /** Outcome of looking up all matching images and reading their `src`
      attributes. */
  datatype ListLookup = ListFailed | Listed(values: seq<string>)

  /** The single-valued fields of a product. `MainImage` is read from an
      attribute; every other one is the element's stripped text. */
  datatype Field =
    | ProductName | Price | Description | MainImage | ProductCode | Size
    | Tip | Thickness | Material | Color | QuantityInBox

  /** The image-list fields of a product. */
  datatype ListField = OtherPictures | DescriptionImages

  /** A rendered page as the spider's lookups see it. `options` is the
      `div.options` marker: `None` when the element is not on the page,
      otherwise the outcome of reading its text (the product name). */
  datatype Page = Page(
    options: Option<Lookup>,
    price: Lookup,
    description: Lookup,
    mainImage: Lookup,
    otherPictures: ListLookup,
    descriptionImages: ListLookup,
    productCode: Lookup,
    size: Lookup,
    tip: Lookup,
    thickness: Lookup,
    material: Lookup,
    color: Lookup,
    quantityInBox: Lookup)
  {
    /** The lookup for field `f` (the product name is read from the marker). */
    function Scalar(f: Field): (l: Lookup)
    {
      match f
      case ProductName => options.GetOr(Failed)
      case Price => price
      case Description => description
      case MainImage => mainImage
      case ProductCode => productCode
      case Size => size
      case Tip => tip
      case Thickness => thickness
      case Material => material
      case Color => color
      case QuantityInBox => quantityInBox
    }

    function List(f: ListField): (l: ListLookup)
    {
      match f
      case OtherPictures => otherPictures
      case DescriptionImages => descriptionImages
    }

    /** This page with the lookup of field `f` failing and the marker kept. */
    function FailScalar(f: Field): (p: Page)
    {
      match f
      case ProductName => this.(options := if options.Some? then Some(Failed) else None)
      case Price => this.(price := Failed)
      case Description => this.(description := Failed)
      case MainImage => this.(mainImage := Failed)
      case ProductCode => this.(productCode := Failed)
      case Size => this.(size := Failed)
      case Tip => this.(tip := Failed)
      case Thickness => this.(thickness := Failed)
      case Material => this.(material := Failed)
      case Color => this.(color := Failed)
      case QuantityInBox => this.(quantityInBox := Failed)
    }

    /** This page with the lookup of list field `f` failing. */
    function FailList(f: ListField): (p: Page)
    {
      match f
      case OtherPictures => this.(otherPictures := ListFailed)
      case DescriptionImages => this.(descriptionImages := ListFailed)
    }
  }

  /** What the spider keeps of one product page. */
  datatype Product = Product(
    productName: Option<string>,
    price: Option<string>,
    description: Option<string>,
    mainImage: Option<string>,
    otherPictures: seq<string>,
    descriptionImages: seq<string>,
    productCode: Option<string>,
    size: Option<string>,
    tip: Option<string>,
    thickness: Option<string>,
    material: Option<string>,
    color: Option<string>,
    quantityInBox: Option<string>)
  {
    function Scalar(f: Field): (v: Option<string>)
    {
      match f
      case ProductName => productName
      case Price => price
      case Description => description
      case MainImage => mainImage
      case ProductCode => productCode
      case Size => size
      case Tip => tip
      case Thickness => thickness
      case Material => material
      case Color => color
      case QuantityInBox => quantityInBox
    }

    function List(f: ListField): (vs: seq<string>)
    {
      match f
      case OtherPictures => otherPictures
      case DescriptionImages => descriptionImages
    }
  }

  /** One guarded single-value read: the stripped text (the raw attribute
      for the main image) when the lookup succeeds, `None` otherwise. */
  function Capture(f: Field, l: Lookup): (r: Option<string>)
    ensures r.Some? <==> l.Found?
    ensures r.Some? && f != MainImage ==> r.value == Text.Trim(l.value)
    ensures r.Some? && f == MainImage ==> r.value == l.value
  {
    match l
    case Failed => None
    case Found(v) => Some(if f == MainImage then v else Text.Trim(v))
  }

  /** One guarded list read: every `src` when the lookup succeeds, the
      initial empty list otherwise. */
  function CaptureList(l: ListLookup): (r: seq<string>)
    ensures l.Listed? ==> r == l.values
    ensures l.ListFailed? ==> r == []
  {
    match l
    case ListFailed => []
    case Listed(vs) => vs
  }

  /** Extraction of a whole page: `None` (page skipped) when the marker is
      missing, otherwise every field captured from its own lookup alone. */
  function Extract(p: Page): (r: Option<Product>)
    ensures r.None? <==> p.options.None?
    ensures r.Some? ==> forall f: Field :: r.value.Scalar(f) == Capture(f, p.Scalar(f))
    ensures r.Some? ==> forall f: ListField :: r.value.List(f) == CaptureList(p.List(f))
  {
    if p.options.None? then None
    else
      Some(Product(
        Capture(ProductName, p.options.value),
        Capture(Price, p.price),
        Capture(Description, p.description),
        Capture(MainImage, p.mainImage),
        CaptureList(p.otherPictures),
        CaptureList(p.descriptionImages),
        Capture(ProductCode, p.productCode),
        Capture(Size, p.size),
        Capture(Tip, p.tip),
        Capture(Thickness, p.thickness),
        Capture(Material, p.material),
        Capture(Color, p.color),
        Capture(QuantityInBox, p.quantityInBox)))
  }

  /** Every single-valued field is present exactly when its own lookup
      succeeds, and then holds the stripped text (raw `src` for the main
      image). */
  lemma FieldPresentIffFound(p: Page, f: Field)
    requires p.options.Some?
    ensures Extract(p).Some?
    ensures Extract(p).value.Scalar(f).Some? <==> p.Scalar(f).Found?
    ensures p.Scalar(f).Found? && f != MainImage ==> Extract(p).value.Scalar(f) == Some(Text.Trim(p.Scalar(f).value))
    ensures p.Scalar(f).Found? && f == MainImage ==> Extract(p).value.Scalar(f) == Some(p.Scalar(f).value)
  {
  }

  /** A failing lookup blanks its own field and leaves every other field,
      and the decision to keep the page, as they were. */
  lemma ScalarFailureIsolated(p: Page, f: Field)
    requires p.options.Some?
    ensures Extract(p.FailScalar(f)).Some?
    ensures Extract(p.FailScalar(f)).value.Scalar(f) == None
    ensures forall g: Field :: g != f ==> Extract(p.FailScalar(f)).value.Scalar(g) == Extract(p).value.Scalar(g)
    ensures forall g: ListField :: Extract(p.FailScalar(f)).value.List(g) == Extract(p).value.List(g)
  {
    var q := p.FailScalar(f);
    assert forall g: Field :: g != f ==> q.Scalar(g) == p.Scalar(g);
    assert forall g: ListField :: q.List(g) == p.List(g);
  }

  /** A failing image-list lookup empties its own list and leaves everything
      else as it was. */
  lemma ListFailureIsolated(p: Page, f: ListField)
    requires p.options.Some?
    ensures Extract(p.FailList(f)).Some?
    ensures Extract(p.FailList(f)).value.List(f) == []
    ensures forall g: ListField :: g != f ==> Extract(p.FailList(f)).value.List(g) == Extract(p).value.List(g)
    ensures forall g: Field :: Extract(p.FailList(f)).value.Scalar(g) == Extract(p).value.Scalar(g)
  {
    var q := p.FailList(f);
    assert forall g: Field :: q.Scalar(g) == p.Scalar(g);
    assert forall g: ListField :: g != f ==> q.List(g) == p.List(g);
  }

  /** A page that has the marker but on which every lookup fails still
      yields a record: all fields absent, both image lists empty. */
  lemma NothingFoundStillExtracts()
    ensures
      var p := Page(Some(Failed), Failed, Failed, Failed, ListFailed, ListFailed,
                    Failed, Failed, Failed, Failed, Failed, Failed, Failed);
      && Extract(p).Some?
      && (forall f: Field :: Extract(p).value.Scalar(f) == None)
      && (forall f: ListField :: Extract(p).value.List(f) == [])
  {
  }
}
