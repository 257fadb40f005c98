/** The flat table the Transform stage builds: one row per city, with the column
    names of `Transform.py` (`ville, pays, temp, temp_min, temp_max, humidite,
    description, vitesse_vent`, and `scrape_date` once stamped). */
module Rows {
  import opened JsonDoc

  /** A pandas cell. `Null` stands for both None and NaN, which pandas treats alike
      (missing for `dropna`, equal to each other for `drop_duplicates`). A dict or a
      list taken from the document stays a Python object in the cell: `Nested`. */
  datatype Cell = Num(value: real) | Str(text: string) | Null | Nested(doc: Json)

  /** One row. `scrapeDate` is `Null` until `transform_data` stamps it: a table
      without the column and one whose column is constant have the same duplicates. */
  datatype Row = Row(
    ville: Cell, pays: Cell,
    temp: Cell, tempMin: Cell, tempMax: Cell,
    humidite: Cell, description: Cell, vitesseVent: Cell,
    scrapeDate: Cell)

  datatype Column = Ville | Pays | Temp | TempMin | TempMax | Humidite | Description | VitesseVent | ScrapeDate

  /** The columns `transform_data` passes through `pd.to_numeric`, in its order. */
  const NumericColumns: seq<Column> := [Temp, TempMin, TempMax, Humidite, VitesseVent]

  /** A DataFrame: `pd.DataFrame([])` has no columns at all, any other table built
      from the row dictionaries has the full schema. */
  datatype Table = Columnless | Frame(rows: seq<Row>)

  function Get(x: Row, c: Column): Cell
  {
    match c
    case Ville => x.ville
    case Pays => x.pays
    case Temp => x.temp
    case TempMin => x.tempMin
    case TempMax => x.tempMax
    case Humidite => x.humidite
    case Description => x.description
    case VitesseVent => x.vitesseVent
    case ScrapeDate => x.scrapeDate
  }

  /** `x` with column `c` overwritten by `v` and every other column kept. */
  function Set(x: Row, c: Column, v: Cell): (y: Row)
    ensures Get(y, c) == v
    ensures forall d :: d != c ==> Get(y, d) == Get(x, d)
  {
    match c
    case Ville => x.(ville := v)
    case Pays => x.(pays := v)
    case Temp => x.(temp := v)
    case TempMin => x.(tempMin := v)
    case TempMax => x.(tempMax := v)
    case Humidite => x.(humidite := v)
    case Description => x.(description := v)
    case VitesseVent => x.(vitesseVent := v)
    case ScrapeDate => x.(scrapeDate := v)
  }

  /** The cell pandas stores for a value taken from the document. */
  function ToCell(v: Json): (c: Cell)
    ensures c.Null? <==> v.JNull?
    ensures c.Nested? <==> v.JObject? || v.JArray?
    ensures v.JNumber? ==> c == Num(v.num)
    ensures v.JString? ==> c == Str(v.text)
    ensures c.Nested? ==> c.doc == v
  {
    match v
    case JNumber(n) => Num(n)
    case JString(s) => Str(s)
    case JNull => Null
    case _ => Nested(v)
  }

  /** A row `drop_duplicates` can hash: no cell holds a dict or a list. */
  predicate Hashable(x: Row)
  {
    !x.ville.Nested? && !x.pays.Nested? && !x.temp.Nested? && !x.tempMin.Nested? &&
    !x.tempMax.Nested? && !x.humidite.Nested? && !x.description.Nested? &&
    !x.vitesseVent.Nested? && !x.scrapeDate.Nested?
  }

  lemma HashableIff(x: Row)
    ensures Hashable(x) <==> forall c :: !Get(x, c).Nested?
  {
    assert !Hashable(x) ==> exists c :: Get(x, c).Nested? by {
      if !Hashable(x) {
        if x.ville.Nested? { assert Get(x, Ville).Nested?; }
        else if x.pays.Nested? { assert Get(x, Pays).Nested?; }
        else if x.temp.Nested? { assert Get(x, Temp).Nested?; }
        else if x.tempMin.Nested? { assert Get(x, TempMin).Nested?; }
        else if x.tempMax.Nested? { assert Get(x, TempMax).Nested?; }
        else if x.humidite.Nested? { assert Get(x, Humidite).Nested?; }
        else if x.description.Nested? { assert Get(x, Description).Nested?; }
        else if x.vitesseVent.Nested? { assert Get(x, VitesseVent).Nested?; }
        else { assert Get(x, ScrapeDate).Nested?; }
      }
    }
  }
}
