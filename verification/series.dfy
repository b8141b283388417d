/**
 The canonical price series and `normalizeData` (extension/content.js), which
 turns the array found in a page into `{date, price}` points.
 */
module Series {
  import opened Wrappers
  import opened Json
  import opened Seqs

  /** One observation: `day` is a day number on a fixed calendar, `price` in francs. */
  datatype Point = Point(day: int, price: real)

  /** The three outcomes of `normalizeData`. */
  datatype Normalized =
    | NotAnArray                   // `return null` for a non-array argument
    | NullItem                     // `item.date` on a `null` element throws a TypeError
    | Points(points: seq<Point>)

  /** `a || b` on optional JSON values: the first truthy one, else the last operand. */
  function Or(a: Option<Json>, b: Option<Json>): Option<Json>
  {
    if a.Some? && Truthy(a.value) then a else b
  }

  /** `item.date || item.Date`, when that is truthy. */
  function DateValue(item: Json): Option<Json>
  {
    var d := Or(Get(item, "date"), Get(item, "Date"));
    if d.Some? && Truthy(d.value) then d else None
  }

  /**
   The first truthy of: the inclusive amount of the `price` object, its plain
   amount, `price` itself, `Price`; zero when none is truthy.
   */
  function PriceValue(item: Json): Json
  {
    var price := Get(item, "price").GetOr(JNull);
    var v := Or(Get(price, "amountIncl"), Or(Get(price, "amount"), Or(Get(item, "price"), Get(item, "Price"))));
    if v.Some? && Truthy(v.value) then v.value else JNum(0.0)
  }

  /**
   `parseFloat(v)`: a number is itself, a string goes through `parseNum` (the
   engine's numeric-prefix parser, None standing for NaN); anything else is NaN.
   */
  function ParseFloat(v: Json, parseNum: string -> Option<real>): Option<real>
  {
    match v
    case JNum(n) => Some(n)
    case JStr(s) => parseNum(s)
    case _ => None
  }

  /**
   The `{date, price}` object the `map` callback builds. `dayOf` reads a date
   value as a day number; a missing date becomes `today`. A NaN price is
   represented by 0.0: the `> 0` filter drops both alike.
   */
  function ToPoint(item: Json, today: int, dayOf: Json -> int, parseNum: string -> Option<real>): Point
  {
    var date := DateValue(item);
    Point(if date.Some? then dayOf(date.value) else today,
          ParseFloat(PriceValue(item), parseNum).GetOr(0.0))
  }

  /** `data.map(...)`. */
  function Drafts(items: seq<Json>, today: int, dayOf: Json -> int, parseNum: string -> Option<real>): (r: seq<Point>)
    ensures |r| == |items|
    ensures forall i :: 0 <= i < |items| ==> r[i] == ToPoint(items[i], today, dayOf, parseNum)
  {
    seq(|items|, i requires 0 <= i < |items| => ToPoint(items[i], today, dayOf, parseNum))
  }

  predicate HasPositivePrice(p: Point)
  {
    p.price > 0.0
  }

  /** `normalizeData(data)`. */
  function NormalizeData(data: Json, today: int, dayOf: Json -> int, parseNum: string -> Option<real>): (r: Normalized)
    ensures r.NotAnArray? <==> !data.JArr?
    ensures r.NullItem? <==> data.JArr? && JNull in data.items
    ensures r.Points? ==> |r.points| <= |data.items|
    ensures r.Points? ==> |r.points| == Count(Drafts(data.items, today, dayOf, parseNum), HasPositivePrice)
    ensures r.Points? ==> forall i :: 0 <= i < |r.points| ==> r.points[i].price > 0.0
    ensures r.Points? ==> IsSubseq(r.points, Drafts(data.items, today, dayOf, parseNum))
    ensures r.Points? ==> forall i :: 0 <= i < |data.items| ==>
      var p := ToPoint(data.items[i], today, dayOf, parseNum); p.price > 0.0 ==> p in r.points
  {
    if !data.JArr? then NotAnArray
    else if JNull in data.items then NullItem
    else
      var drafts := Drafts(data.items, today, dayOf, parseNum);
      FilterIsSubseq(drafts, HasPositivePrice);
      Points(Filter(drafts, HasPositivePrice))
  }

  /** An element without a truthy `date` or `Date` is dated today. */
  lemma UndatedItemIsToday(item: Json, today: int, dayOf: Json -> int, parseNum: string -> Option<real>)
    requires !(Get(item, "date").Some? && Truthy(Get(item, "date").value))
    requires !(Get(item, "Date").Some? && Truthy(Get(item, "Date").value))
    ensures ToPoint(item, today, dayOf, parseNum).day == today
  {
  }

  /** A truthy numeric `price.amountIncl` wins over every other price field. */
  lemma InclusiveAmountPreferred(item: Json, today: int, dayOf: Json -> int, parseNum: string -> Option<real>, amount: real)
    requires amount != 0.0
    requires Get(item, "price").Some? && Get(Get(item, "price").value, "amountIncl") == Some(JNum(amount))
    ensures ToPoint(item, today, dayOf, parseNum).price == amount
  {
  }
}
