/**
 * The FreshMart product database: a constant table from barcode string to
 * product record, and the discounted price that the cart charges for a
 * record. Prices are in rupees and are exact reals here.
 */
module Catalog {
  import opened Wrappers

  /**
   * A product record. `ingredients`, `nutrition` and `allergens` are absent
   * from some records of the table, so they are optional; the evaluator reads
   * an absent list as an empty one.
   */
  datatype Product = Product(
    name: string,
    price: real,
    discountPercent: int,
    details: map<string, string>,
    ingredients: Option<seq<string>>,
    nutrition: Option<map<string, real>>,
    allergens: Option<seq<string>>)

  /** The record's ingredient list, empty when it declares none. */
  function Ingredients(p: Product): seq<string> {
    if p.ingredients.Some? then p.ingredients.value else []
  }

  /** The record's allergen list, empty when it declares none. */
  function Allergens(p: Product): seq<string> {
    if p.allergens.Some? then p.allergens.value else []
  }

  /** A price no shop would refuse: never negative, discount a percentage. */
  predicate WellPriced(p: Product) {
    p.price >= 0.0 && 0 <= p.discountPercent <= 100
  }

  /** `price * (1 - discount_percent / 100)`, the price charged for the record. */
  function DiscountedPrice(p: Product): real {
    p.price * (1.0 - p.discountPercent as real / 100.0)
  }

  /** A well-priced record is charged between nothing and its full price. */
  lemma DiscountedPriceBounds(p: Product)
    requires WellPriced(p)
    ensures 0.0 <= DiscountedPrice(p) <= p.price
    ensures p.discountPercent == 0 ==> DiscountedPrice(p) == p.price
  {
    var f := 1.0 - p.discountPercent as real / 100.0;
    assert 0.0 <= f <= 1.0;
    assert p.price - DiscountedPrice(p) == p.price * (1.0 - f);
  }

  const TrailMix := Product(
    "FreshMart Premia Trail Mix", 150.0, 10,
    map["Net Quantity" := "100 g"],
    Some(["Cranberry", "Black Raisins", "Pumpkin Seeds", "Almonds", "Cashew Nuts"]),
    Some(map["calories" := 450.0, "protein_g" := 15.0]),
    Some(["Tree Nuts"]))

  const KalaChana := Product(
    "Fortune Sushan Kala Chana", 85.0, 0,
    map["Net Weight" := "500 g"],
    Some(["Kala Chana"]),
    Some(map["calories" := 364.0, "protein_g" := 20.0]),
    Some([]))

  const Muesli := Product(
    "Yoga Bar Crunchy Muesli", 40.0, 0,
    map["Net Weight" := "40 g"],
    Some(["Rolled Oats", "Ragi Flakes", "Almonds", "Flax Seeds", "Chia Seeds"]),
    Some(map["calories" := 156.0, "protein_g" := 4.6]),
    Some(["Oats", "Nuts", "Soy"]))

  const Hajmola := Product(
    "Dabur Hajmola Imli", 30.0, 5,
    map["Type" := "Tasty Digestive Tablets"],
    Some(["Pippali", "Sunthi", "Nimbu Saar", "Imli Saar", "Samudra Lavana"]),
    Some(map["calories" := 10.0, "protein_g" := 0.1]),
    Some([]))

  const Dates := Product(
    "Royal Zahidi Dates", 250.0, 0,
    map["Net Weight" := "500 g", "Country of Origin" := "Iraq"],
    Some(["Zahidi Dates"]),
    Some(map["calories" := 282.0, "protein_g" := 2.5]),
    Some(["May contain traces of nuts and seeds"]))

  const Electral := Product(
    "Electral (ORS)", 21.5, 0,
    map["Contents" := "4.40 g", "Formula" := "W.H.O."],
    Some(["Sodium Chloride", "Potassium Chloride", "Sodium Citrate", "Dextrose Anhydrous"]),
    None,
    Some([]))

  const Dictionary := Product(
    "Oxford Mini Dictionary", 275.0, 15,
    map["Publisher" := "Oxford University Press"],
    None, None, None)

  const Notebook := Product(
    "DOMS A5 Poly Notebook", 80.0, 0,
    map["Ruling" := "Single Line", "Pages" := "160"],
    None, None, None)

  const Cleanser := Product(
    "Minimalist Face Cleanser", 299.0, 0,
    map["Net Content" := "100 ml"],
    Some(["Aqua", "Glycerin", "Cocamidopropyl Betaine"]),
    None,
    Some([]))

  const CollegeBook := Product(
    "TRU NOTE A4 College Book", 55.0, 0,
    map["Ruling" := "Unruled", "Pages" := "140"],
    None, None, None)

  /** The store's table, keyed by the exact barcode string. */
  function Table(): map<string, Product> {
    map[
      "8903363011411" := TrailMix,
      "8906008815191" := KalaChana,
      "8904335600312" := Muesli,
      "8901207048760" := Hajmola,
      "8906021924436" := Dates,
      "8902346012360" := Electral,
      "9780190135096" := Dictionary,
      "8906073789327" := Notebook,
      "8906128100320" := Cleanser,
      "1001972587" := CollegeBook
    ]
  }

  /** `get_product_details`: the record for a barcode, or `None` for an unknown one. */
  function Lookup(barcode: string): (r: Option<Product>)
    ensures r.Some? <==> barcode in Table()
    ensures r.Some? ==> r.value == Table()[barcode] && WellPriced(r.value)
  {
    TableWellPriced();
    if barcode in Table() then Some(Table()[barcode]) else None
  }

  /** Every record of the table is well priced. */
  lemma TableWellPriced()
    ensures forall b :: b in Table() ==> WellPriced(Table()[b])
  {
  }

  /** Exactly the ten barcodes of the table are known; every other string is not. */
  lemma KnownBarcodes(barcode: string)
    ensures Lookup(barcode).Some? <==>
      barcode in {"8903363011411", "8906008815191", "8904335600312", "8901207048760",
                  "8906021924436", "8902346012360", "9780190135096", "8906073789327",
                  "8906128100320", "1001972587"}
  {
  }

  /** Barcodes are exact strings: the 10-digit key is found, a padded or prefixed variant is not. */
  lemma LookupExamples()
    ensures Lookup("8903363011411") == Some(TrailMix)
    ensures Lookup("8906008815191") == Some(KalaChana)
    ensures Lookup("1001972587") == Some(CollegeBook)
    ensures Lookup("1001972587 ") == None
    ensures Lookup("001001972587") == None
    ensures Lookup("") == None
    ensures DiscountedPrice(TrailMix) == 135.0 && DiscountedPrice(KalaChana) == 85.0
  {
  }
}
