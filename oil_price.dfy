/**
 * The PVOIL fuel price service: reading the price table into the two petrol products
 * it follows, the one-minute cache, and picking the RON 95-III price. The page is given
 * as the text of each cell of each table row.
 */
module OilPrice {
  import opened Wrappers
  import opened Text
  import opened Decimal
  import opened PriceCache

  const TtlMs: nat := 60000
  const CacheKey: string := "oil"
  const UpdatedNote: string := "C\U{1EAD}p nh\U{1EAD}t t\U{1EEB}: PVOIL"

  /** `parseVND`: the digits of the cell, in dong. */
  function ParseVND(s: string): nat {
    Parse(s)
  }

  /**
   * `parseChange`: after trimming, an empty cell or a lone dash is no change; a
   * leading dash makes the digits negative; any other text reads as its digits.
   */
  function ParseChange(s: string): (r: int)
    ensures Trim(s) == "" || Trim(s) == "-" ==> r == 0
    ensures StartsWith(Trim(s), "-") ==> r <= 0
    ensures !StartsWith(Trim(s), "-") ==> r >= 0
    ensures (if r < 0 then -r else r) == Parse(Trim(s))
    ensures r < 0 <==> StartsWith(Trim(s), "-") && Parse(Trim(s)) > 0
  {
    var str := Trim(s);
    if str == "" || str == "-" then 0
    else if StartsWith(str, "-") then -(Parse(str) as int)
    else Parse(str)
  }

  /** A rendered number, with or without a sign in front, is its own trim. */
  lemma SignedIsTrimmed(sign: string, n: nat)
    requires sign == "" || sign == "+" || sign == "-"
    ensures Trim(sign + Format(n)) == sign + Format(n)
  {
    var f := Format(n);
    var t := sign + f;
    assert t[|t| - 1] == f[|f| - 1];
    assert IsDigit(f[0]) && IsDigit(f[|f| - 1]);
    assert !IsSpace(t[0]) && !IsSpace(t[|t| - 1]);
    TrimUnpadded(t);
  }

  /** A character that is not a digit in front of a string does not change its digits. */
  lemma PrefixIgnored(c: char, f: string)
    requires !IsDigit(c)
    ensures Parse([c] + f) == Parse(f)
  {
    NonDigitIgnored([], c, f);
    assert [] + [c] + f == [c] + f;
    assert [] + f == f;
  }

  /** A sign in front of a rendered number does not change its digits. */
  lemma SignedParse(sign: string, n: nat)
    requires sign == "" || sign == "+" || sign == "-"
    ensures Parse(sign + Format(n)) == n
  {
    var f := Format(n);
    ParseFormat(n);
    if sign == "" {
      assert sign + f == f;
    } else {
      assert sign == [sign[0]];
      PrefixIgnored(sign[0], f);
    }
  }

  /** A rendered number, with or without a sign in front, is neither empty nor a lone dash. */
  lemma SignedShape(sign: string, n: nat)
    requires sign == "" || sign == "+" || sign == "-"
    ensures sign + Format(n) != "" && sign + Format(n) != "-"
    ensures StartsWith(sign + Format(n), "-") <==> sign == "-"
  {
    var f := Format(n);
    var t := sign + f;
    assert t[|sign|] == f[0] && IsDigit(f[0]);
    if sign == "" {
      assert t == f;
      assert t[0] != '-';
    } else {
      assert t[0] == sign[0];
    }
  }

  /** What `parseChange` does with a signed rendering of a number. */
  lemma SignedChange(sign: string, n: nat)
    requires sign == "" || sign == "+" || sign == "-"
    ensures ParseChange(sign + Format(n)) == if sign == "-" then -(n as int) else n
  {
    var t := sign + Format(n);
    SignedIsTrimmed(sign, n);
    SignedParse(sign, n);
    SignedShape(sign, n);
    var r := ParseChange(t);
    assert (if r < 0 then -r else r) == n;
    if sign == "-" {
      assert r <= 0;
    } else {
      assert r >= 0;
    }
  }

  /** A change written with its sign, or without one, reads back as that change. */
  lemma ParseChangeSigned(n: nat)
    ensures ParseChange(Format(n)) == n
    ensures ParseChange("+" + Format(n)) == n
    ensures ParseChange("-" + Format(n)) == -(n as int)
  {
    assert "" + Format(n) == Format(n);
    SignedChange("", n);
    SignedChange("+", n);
    SignedChange("-", n);
  }

  datatype Product = Product(name: string, price: nat, change: int)

  const Ron95Name: string := "X\U{103}ng RON 95-III"
  const E5Name: string := "X\U{103}ng E5 RON 92-II"

  /** A product the service follows: its name mentions RON 95-III or E5 RON 92-II petrol. */
  predicate Followed(name: string) {
    Contains(name, Ron95Name) || Contains(name, E5Name)
  }

  /**
   * One row read as a product: it needs four cells, a name and a price text; only
   * the two followed products are kept. The price is never null, so no further row
   * is dropped.
   */
  function ReadRow(row: seq<string>): (r: Option<Product>)
    ensures r.Some? <==> |row| >= 4 && Trim(row[1]) != "" && Trim(row[2]) != "" && Followed(Trim(row[1]))
    ensures r.Some? ==> r.value == Product(Trim(row[1]), ParseVND(Trim(row[2])), ParseChange(Trim(row[3])))
  {
    if |row| < 4 then None
    else
      var name, priceText, changeText := Trim(row[1]), Trim(row[2]), Trim(row[3]);
      if name != "" && priceText != "" && Followed(name) then
        Some(Product(name, ParseVND(priceText), ParseChange(changeText)))
      else None
  }

  function ReadRows(rows: seq<seq<string>>): seq<Product> {
    Values(Map(ReadRow, rows))
  }

  /** Every product kept is a followed product with a name, taken from some row. */
  lemma ReadRowsFollowed(rows: seq<seq<string>>)
    ensures |ReadRows(rows)| <= |rows|
    ensures forall p | p in ReadRows(rows) :: p.name != "" && Followed(p.name)
    ensures forall p | p in ReadRows(rows) :: exists row | row in rows :: ReadRow(row) == Some(p)
  {
    var each := Map(ReadRow, rows);
    ValuesFrom(each);
    forall p | p in ReadRows(rows) ensures p.name != "" && Followed(p.name) && exists row | row in rows :: ReadRow(row) == Some(p) {
      var i :| 0 <= i < |each| && each[i] == Some(p);
      assert rows[i] in rows;
    }
  }

  datatype OilData = OilData(updatedAtText: string, products: seq<Product>, count: nat)

  /** `fetchPVOIL` once the page is in hand: the rows are read one by one, in order. */
  method FetchPVOIL(rows: seq<seq<string>>) returns (data: OilData)
    ensures data.products == ReadRows(rows) && data.count == |data.products|
    ensures data.updatedAtText == CollapseSpaces(UpdatedNote)
  {
    var products: seq<Product> := [];
    var i := 0;
    while i < |rows|
      invariant 0 <= i <= |rows|
      invariant products == ReadRows(rows[..i])
    {
      assert Map(ReadRow, rows[..i + 1])[..i] == Map(ReadRow, rows[..i]);
      var product := ReadRow(rows[i]);
      if product.Some? {
        products := products + [product.value];
      }
      i := i + 1;
    }
    assert rows[..i] == rows;
    data := OilData(CollapseSpaces(UpdatedNote), products, |products|);
  }

  /** `getOilPrice()`, with `fetch` the answer `fetchPVOIL()` gives on a miss. */
  method GetOilPrice(cache: TtlCache<OilData>, now: int, fetch: Result<OilData, string>, storedAt: int)
    returns (r: Result<OilData, string>, fetched: bool)
    requires cache.ttl == TtlMs
    modifies cache
    ensures old(cache.Cached(CacheKey, now)).Some? ==> !fetched && r == Ok(old(cache.Cached(CacheKey, now)).value) && cache.entries == old(cache.entries)
    ensures old(cache.Cached(CacheKey, now)).None? ==> fetched && r == fetch
    ensures old(cache.Cached(CacheKey, now)).None? ==>
              cache.entries == if fetch.Ok? then old(cache.entries)[CacheKey := Entry(storedAt, fetch.value)] else old(cache.entries)
  {
    r, fetched := cache.Get(CacheKey, now, fetch, storedAt);
  }

  /** The name, lower-cased, includes `needle`. */
  predicate Mentions(p: Product, needle: string) {
    Contains(Lower(p.name), needle)
  }

  /** The name, lower-cased, mentions RON 95-III. */
  predicate IsRon95(p: Product) {
    Mentions(p, "ron 95-iii")
  }

  /** `findIndex` of the first product whose lower-cased name includes `needle`. */
  function FirstMentioning(products: seq<Product>, needle: string): (r: Option<nat>)
    ensures r.Some? ==> r.value < |products| && Mentions(products[r.value], needle)
    ensures r.Some? ==> forall j | 0 <= j < r.value :: !Mentions(products[j], needle)
    ensures r.None? <==> forall j | 0 <= j < |products| :: !Mentions(products[j], needle)
  {
    if products == [] then None
    else if Mentions(products[0], needle) then Some(0)
    else match FirstMentioning(products[1..], needle)
      case Some(j) => Some(j + 1)
      case None => None
  }

  function Ron95Index(products: seq<Product>): (r: Option<nat>)
    ensures r.Some? ==> r.value < |products| && IsRon95(products[r.value])
    ensures r.Some? ==> forall j | 0 <= j < r.value :: !IsRon95(products[j])
    ensures r.None? <==> forall j | 0 <= j < |products| :: !IsRon95(products[j])
  {
    FirstMentioning(products, "ron 95-iii")
  }

  /** `getRON95Price`: the first RON 95-III product, else the first product; null without products. */
  function GetRON95Price(data: Option<OilData>): (r: Option<Product>)
    ensures r.None? <==> data.None? || data.value.products == []
    ensures r.Some? ==> r.value in data.value.products
    ensures r.Some? && !IsRon95(r.value) ==>
              r.value == data.value.products[0] && forall p | p in data.value.products :: !IsRon95(p)
    ensures r.Some? && IsRon95(r.value) ==> exists i | 0 <= i < |data.value.products| ::
              data.value.products[i] == r.value && forall j | 0 <= j < i :: !IsRon95(data.value.products[j])
  {
    if data.None? || data.value.products == [] then None
    else match Ron95Index(data.value.products)
      case Some(i) => Some(data.value.products[i])
      case None => Some(data.value.products[0])
  }

  /** On ASCII text, lower-casing maps each character to its ASCII lower case. */
  lemma {:induction false} LowerAscii(s: string)
    requires forall i | 0 <= i < |s| :: s[i] < '\U{80}'
    ensures |Lower(s)| == |s| && forall i | 0 <= i < |s| :: Lower(s)[i] == LowerChar(s[i])
    decreases |s|
  {
    if s != [] {
      LowerAscii(s[1..]);
      assert Lower(s) == [LowerChar(s[0])] + Lower(s[1..]);
    }
  }

  const Ron95Grade: string := "RON 95-III"

  /** The grade follows "Xăng " in the product name. */
  lemma GradeInName()
    ensures Contains(Ron95Name, Ron95Grade)
  {
    assert OccursAt(Ron95Name, Ron95Grade, 5);
  }

  /** The grade lower-cases to the text the search looks for. */
  lemma GradeLowered()
    ensures Lower(Ron95Grade) == "ron 95-iii"
  {
    GradeCharsLowered(Ron95Grade);
  }

  /** The same, spelled out character by character. */
  lemma GradeCharsLowered(t: string)
    requires t == ['R', 'O', 'N', ' ', '9', '5', '-', 'I', 'I', 'I']
    ensures Lower(t) == "ron 95-iii"
  {
    LowerAscii(t);
  }

  /** The product named as the page names RON 95-III petrol is found by the lower-case search. */
  lemma Ron95Found(p: Product)
    requires Contains(p.name, Ron95Name)
    ensures IsRon95(p)
  {
    GradeInName();
    GradeLowered();
    ContainsTransitive(p.name, Ron95Name, Ron95Grade);
    ContainsLowered(p.name, Ron95Grade);
  }

  /** If `b` occurs in `a` and `c` in `b`, then `c` occurs in `a`. */
  lemma ContainsTransitive(a: string, b: string, c: string)
    requires Contains(a, b) && Contains(b, c)
    ensures Contains(a, c)
  {
    var i :| 0 <= i <= |a| - |b| && OccursAt(a, b, i);
    var j :| 0 <= j <= |b| - |c| && OccursAt(b, c, j);
    forall k | 0 <= k < |c| ensures a[i + j + k] == c[k] {
      assert a[i + j + k] == a[i..i + |b|][j + k] == b[j + k] == b[j..j + |c|][k];
    }
    assert a[i + j..i + j + |c|] == c;
    assert OccursAt(a, c, i + j);
  }

  /** When the table lists RON 95-III petrol, the price picked is a RON 95-III price. */
  lemma PicksRon95WhenListed(rows: seq<seq<string>>, data: OilData)
    requires data.products == ReadRows(rows)
    requires exists p | p in data.products :: Contains(p.name, Ron95Name)
    ensures GetRON95Price(Some(data)).Some? && IsRon95(GetRON95Price(Some(data)).value)
  {
    var p :| p in data.products && Contains(p.name, Ron95Name);
    Ron95Found(p);
  }
}
