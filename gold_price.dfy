/**
 * The BTMC gold price service: reading the price table's rows into items, the
 * one-minute cache per range, and picking the VRTL Bao Tin Minh Chau bar price.
 * The HTTP request and the HTML parsing are outside the model: a page is given as the
 * text of its update note and, per table row, the text of each cell and the `src`
 * of the arrow icon inside it.
 */
module GoldPrice {
  import opened Wrappers
  import opened Text
  import opened Decimal
  import opened PriceCache

  const TtlMs: nat := 60000
  const DefaultRange: string := "ngay"

  /**
   * `parseVNDk`: the digits of the cell read as thousands of dong. An empty cell reads
   * as 0; the result is never null for the digit strings a page holds.
   */
  function ParseVNDk(s: string): (r: nat)
    ensures r % 1000 == 0
  {
    1000 * Parse(s)
  }

  /** A price written as the page writes it, digits with separators, reads as that many thousands. */
  lemma ParseVNDkReadsThousands(n: nat, a: string, c: char, b: string)
    requires a + b == Format(n) && !IsDigit(c)
    ensures ParseVNDk(a + [c] + b) == 1000 * n
    ensures ParseVNDk(Format(n)) == 1000 * n
  {
    NonDigitIgnored(a, c, b);
    ParseFormat(n);
  }

  datatype Status = Up | Down | Flat | Unknown

  /**
   * `mapArrowToStatus`: the icon file name, lower-cased, decides; `up_arrow` wins over
   * `down_arrow`, which wins over `right_arrow` and `flat_arrow`; no icon is unknown.
   */
  function MapArrowToStatus(src: Option<string>): (r: Status)
    ensures src.None? || src == Some("") ==> r == Unknown
    ensures r == Up <==> src.Some? && Contains(Lower(src.value), "up_arrow")
    ensures r == Down <==> src.Some? && !Contains(Lower(src.value), "up_arrow") && Contains(Lower(src.value), "down_arrow")
    ensures r == Flat <==> src.Some? && !Contains(Lower(src.value), "up_arrow") && !Contains(Lower(src.value), "down_arrow")
                           && (Contains(Lower(src.value), "right_arrow") || Contains(Lower(src.value), "flat_arrow"))
    ensures r == Unknown <==> src.None? || (!Contains(Lower(src.value), "up_arrow") && !Contains(Lower(src.value), "down_arrow")
                                            && !Contains(Lower(src.value), "right_arrow") && !Contains(Lower(src.value), "flat_arrow"))
  {
    if src.None? || src.value == "" then Unknown
    else
      var f := Lower(src.value);
      if Contains(f, "up_arrow") then Up
      else if Contains(f, "down_arrow") then Down
      else if Contains(f, "right_arrow") || Contains(f, "flat_arrow") then Flat
      else Unknown
  }

  /** The status does not depend on the letter case of the icon's name. */
  lemma StatusIgnoresCase(src: string)
    ensures MapArrowToStatus(Some(Lower(src))) == MapArrowToStatus(Some(src))
  {
    LowerIdempotent(src);
  }

  /** "Liên hệ" ("contact us"), written where a price would be when there is none. */
  const ContactText: string := "Li\U{EA}n h\U{1EC7}"

  /**
   * The case folding of a regular expression with the `i` flag, for the letters of
   * `ContactText`: ASCII letters, e with circumflex, e with circumflex and dot below.
   * No other character folds onto one of those letters.
   */
  function Fold(c: char): char {
    if 'a' <= c <= 'z' then (c as int - 32) as char
    else if c == '\U{EA}' then '\U{CA}'
    else if c == '\U{1EC7}' then '\U{1EC6}'
    else c
  }

  predicate FoldedAt(s: string, needle: string, i: nat) {
    i + |needle| <= |s| && forall k | 0 <= k < |needle| :: Fold(s[i + k]) == Fold(needle[k])
  }

  /** `/Liên hệ/i.test(s)`. */
  predicate SaysContact(s: string) {
    exists i | 0 <= i <= |s| - |ContactText| :: FoldedAt(s, ContactText, i)
  }

  /** The cell text written in any letter case says "contact"; a number never does. */
  lemma ContactCells(ds: string)
    requires AllDigits(ds)
    ensures SaysContact(ContactText)
    ensures SaysContact("LI\U{CA}N H\U{1EC6}")
    ensures SaysContact("Gi\U{E1} li\U{EA}n h\U{1EC7}")
    ensures !SaysContact(ds)
  {
    assert FoldedAt(ContactText, ContactText, 0);
    assert FoldedAt("LI\U{CA}N H\U{1EC6}", ContactText, 0);
    assert FoldedAt("Gi\U{E1} li\U{EA}n h\U{1EC7}", ContactText, 4);
    forall i | 0 <= i <= |ds| - |ContactText| ensures !FoldedAt(ds, ContactText, i) {
      assert ContactText[0] == 'L';
    }
  }

  /** One cell of a table row: its text and the `src` of the status icon in it, if any. */
  datatype Cell = Cell(text: string, icon: Option<string>)

  datatype GoldItem = GoldItem(brand: string, hamLuong: string, muaVao: nat, banRa: Option<nat>, status: Status)

  /** `.text().replace(/\s+/g, " ").trim()`. */
  function CellLabel(text: string): string {
    Trim(CollapseSpaces(text))
  }

  /**
   * One row of the table read as an item: rows with fewer than five cells, or a blank
   * brand cell, are skipped. The buy price is cell 3; the sell price, cell 4, is null
   * when it says "Liên hệ"; the status comes from the icon in cell 5. Since a buy price
   * is never null, every row that is not skipped is kept.
   */
  function ReadRow(row: seq<Cell>): (r: Option<GoldItem>)
    ensures r.Some? ==> |row| >= 5 && r.value.brand == CellLabel(row[1].text) != ""
    ensures r.Some? ==> r.value.muaVao == ParseVNDk(Trim(row[3].text))
    ensures r.Some? ==> (r.value.banRa.None? <==> SaysContact(Trim(row[4].text)))
  {
    if |row| < 5 then None
    else
      var brand := CellLabel(row[1].text);
      if brand == "" then None
      else
        var sell := Trim(row[4].text);
        Some(GoldItem(brand, CellLabel(row[2].text), ParseVNDk(Trim(row[3].text)),
                      if SaysContact(sell) then None else Some(ParseVNDk(sell)),
                      MapArrowToStatus(if |row| > 5 then row[5].icon else None)))
  }

  /** Collapsing white space keeps a string blank exactly when it was blank. */
  lemma CollapseKeepsBlank(s: string)
    ensures AllSpace(CollapseSpaces(s)) <==> AllSpace(s)
  {
    if s != [] {
      if !IsSpace(s[0]) {
        assert CollapseSpaces(s)[0] == s[0];
      } else {
        var n := LeadingSpaces(s);
        var rest := CollapseSpaces(s[n..]);
        assert CollapseSpaces(s) == [' '] + rest;
        if n < |s| {
          assert s[n..][0] == s[n];
          assert CollapseSpaces(s)[1] == rest[0];
        }
      }
    }
  }

  /** A row is kept exactly when it has at least five cells and its brand cell is not blank. */
  lemma RowKept(row: seq<Cell>)
    ensures ReadRow(row).Some? <==> |row| >= 5 && !AllSpace(row[1].text)
  {
    if |row| >= 5 {
      CollapseKeepsBlank(row[1].text);
    }
  }

  function ReadRows(rows: seq<seq<Cell>>): seq<GoldItem> {
    Values(Map(ReadRow, rows))
  }

  /** Reading a table is reading its parts one after the other: the rows keep their order. */
  lemma ReadRowsConcat(a: seq<seq<Cell>>, b: seq<seq<Cell>>)
    ensures ReadRows(a + b) == ReadRows(a) + ReadRows(b)
  {
    MapConcat(ReadRow, a, b);
    ValuesConcat(Map(ReadRow, a), Map(ReadRow, b));
  }

  /** Every item comes from a row, and a table never yields more items than rows. */
  lemma ReadRowsFromRows(rows: seq<seq<Cell>>)
    ensures |ReadRows(rows)| <= |rows|
    ensures forall it | it in ReadRows(rows) :: exists row | row in rows :: ReadRow(row) == Some(it)
  {
    var each := Map(ReadRow, rows);
    ValuesFrom(each);
    forall it | it in ReadRows(rows) ensures exists row | row in rows :: ReadRow(row) == Some(it) {
      var i :| 0 <= i < |each| && each[i] == Some(it);
      assert rows[i] in rows;
    }
  }

  datatype GoldData = GoldData(range: string, updatedAtText: string, count: nat, items: seq<GoldItem>)

  /**
   * `.text().trim().replace(/\t+/g, " ").replace(/\s+/g, " ")`; a tab is white space,
   * so the second replacement already turns each run holding tabs into one space.
   */
  function NoteText(note: string): string {
    CollapseSpaces(Trim(note))
  }

  /** `fetchBTMC` once the page is in hand: the rows are read one by one, in order. */
  method FetchBTMC(range: string, note: string, rows: seq<seq<Cell>>) returns (data: GoldData)
    ensures data.range == range && data.updatedAtText == NoteText(note)
    ensures data.items == ReadRows(rows) && data.count == |data.items|
  {
    var items: seq<GoldItem> := [];
    var i := 0;
    while i < |rows|
      invariant 0 <= i <= |rows|
      invariant items == ReadRows(rows[..i])
    {
      assert Map(ReadRow, rows[..i + 1])[..i] == Map(ReadRow, rows[..i]);
      var item := ReadRow(rows[i]);
      if item.Some? {
        items := items + [item.value];
      }
      i := i + 1;
    }
    assert rows[..i] == rows;
    data := GoldData(range, NoteText(note), |items|, items);
  }

  /** `getGoldPrice(range)`, with `fetch` the answer `fetchBTMC(range)` gives on a miss. */
  method GetGoldPrice(cache: TtlCache<GoldData>, range: string, now: int, fetch: Result<GoldData, string>, storedAt: int)
    returns (r: Result<GoldData, string>, fetched: bool)
    requires cache.ttl == TtlMs
    modifies cache
    ensures old(cache.Cached(range, now)).Some? ==> !fetched && r == Ok(old(cache.Cached(range, now)).value) && cache.entries == old(cache.entries)
    ensures old(cache.Cached(range, now)).None? ==> fetched && r == fetch
    ensures old(cache.Cached(range, now)).None? ==>
              cache.entries == if fetch.Ok? then old(cache.entries)[range := Entry(storedAt, fetch.value)] else old(cache.entries)
  {
    r, fetched := cache.Get(range, now, fetch, storedAt);
  }

  const VrtlNeedle: string := "V\U{C0}NG MI\U{1EBE}NG VRTL B\U{1EA2}O T\U{CD}N"
  const MinhChauNeedle: string := "MINH CH\U{C2}U"

  /** The brand, upper-cased, names the VRTL bar of Bao Tin Minh Chau. */
  predicate IsVrtl(it: GoldItem) {
    Contains(Upper(it.brand), VrtlNeedle) && Contains(Upper(it.brand), MinhChauNeedle)
  }

  /** The position of the first VRTL item. */
  function VrtlIndex(items: seq<GoldItem>): (r: Option<nat>)
    ensures r.Some? ==> r.value < |items| && IsVrtl(items[r.value])
    ensures r.Some? ==> forall j | 0 <= j < r.value :: !IsVrtl(items[j])
    ensures r.None? <==> forall j | 0 <= j < |items| :: !IsVrtl(items[j])
  {
    if items == [] then None
    else if IsVrtl(items[0]) then Some(0)
    else match VrtlIndex(items[1..])
      case Some(j) => Some(j + 1)
      case None => None
  }

  datatype VrtlPrice = VrtlPrice(buyPrice: nat, sellPrice: Option<nat>, brand: string, hamLuong: string, status: Status)

  /** `getVRTLPrice`: the prices of the first VRTL item; null without data, items or a match. */
  function GetVRTLPrice(data: Option<GoldData>): (r: Option<VrtlPrice>)
    ensures r.Some? ==> data.Some? && exists i | 0 <= i < |data.value.items| ::
      && IsVrtl(data.value.items[i]) && (forall j | 0 <= j < i :: !IsVrtl(data.value.items[j]))
      && r.value == VrtlPrice(data.value.items[i].muaVao, data.value.items[i].banRa,
                              data.value.items[i].brand, data.value.items[i].hamLuong, data.value.items[i].status)
    ensures r.None? <==> data.None? || forall j | 0 <= j < |data.value.items| :: !IsVrtl(data.value.items[j])
  {
    if data.None? || data.value.items == [] then None
    else match VrtlIndex(data.value.items)
      case None => None
      case Some(i) =>
        var it := data.value.items[i];
        Some(VrtlPrice(it.muaVao, it.banRa, it.brand, it.hamLuong, it.status))
  }

  /** Upper-casing leaves a string without lower-case letters as it is. */
  lemma UpperFixes(s: string)
    requires forall i | 0 <= i < |s| :: UpperChar(s[i]) == s[i]
    ensures Upper(s) == s
  {
  }

  lemma NeedlesAreUpper()
    ensures Upper(VrtlNeedle) == VrtlNeedle && Upper(MinhChauNeedle) == MinhChauNeedle
  {
    UpperFixes(VrtlNeedle);
    UpperFixes(MinhChauNeedle);
  }

  /** The brand as BTMC prints it names the VRTL bar. */
  lemma VrtlBrandMatches(it: GoldItem)
    requires it.brand == VrtlNeedle + " " + MinhChauNeedle
    ensures IsVrtl(it)
  {
    NeedlesAreUpper();
    var u := Upper(it.brand);
    assert u == it.brand by {
      forall i | 0 <= i < |it.brand| ensures u[i] == it.brand[i] {
        if i < |VrtlNeedle| {
          assert it.brand[i] == VrtlNeedle[i] == Upper(VrtlNeedle)[i];
        } else if i > |VrtlNeedle| {
          var j := i - |VrtlNeedle| - 1;
          assert it.brand[i] == MinhChauNeedle[j] == Upper(MinhChauNeedle)[j];
        }
      }
    }
    assert u[..|VrtlNeedle|] == VrtlNeedle;
    assert u[|VrtlNeedle| + 1..|VrtlNeedle| + 1 + |MinhChauNeedle|] == MinhChauNeedle;
    assert OccursAt(u, VrtlNeedle, 0);
    assert OccursAt(u, MinhChauNeedle, |VrtlNeedle| + 1);
  }
}
