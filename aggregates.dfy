/**
 * The aggregation routines behind the dashboard's cards and charts. Each
 * takes the filtered table, drops the rows missing a cell it needs, and
 * returns a count (rendered as text) or a small table of counts.
 */
module Aggregates {
  import opened Wrappers
  import opened Records
  import opened Tables
  import opened Strings
  import opened Derived

  // ---------------------------------------------------------------------
  // Key columns: each is the column (or pair of columns) a routine groups
  // by, missing when any cell it needs is missing.
  // ---------------------------------------------------------------------

  function CustomerKey(row: Record): Option<int> { row.customerId }
  function CategoryKey(row: Record): Option<string> { row.category }
  function ItemKey(row: Record): Option<string> { row.item }
  function ColorKey(row: Record): Option<string> { row.color }
  function PaymentKey(row: Record): Option<string> { row.payment }

  function CategoryItemKey(row: Record): Option<(string, string)>
  {
    if row.category.Some? && row.item.Some? then Some((row.category.value, row.item.value)) else None
  }

  function GenderCategoryKey(row: Record): Option<(string, string)>
  {
    if row.gender.Some? && row.category.Some? then Some((row.gender.value, row.category.value)) else None
  }

  /** Age group and item; rows whose age falls in no bin have no key. */
  function AgeItemKey(row: Record): Option<(AgeGroup, string)>
  {
    if row.age.Some? && row.item.Some? && AgeGroupOf(row.age.value).Some? then
      Some((AgeGroupOf(row.age.value).value, row.item.value))
    else None
  }

  /** The discount status after the `replace` table. */
  function DiscountKey(row: Record): Option<RawValue>
  {
    if row.discount.Some? then Some(NormalizeDiscount(row.discount.value)) else None
  }

  function CategoryDiscountKey(row: Record): Option<(string, RawValue)>
  {
    if row.category.Some? && row.discount.Some? then
      Some((row.category.value, NormalizeDiscount(row.discount.value)))
    else None
  }

  // ---------------------------------------------------------------------
  // Overview cards
  // ---------------------------------------------------------------------

  /** `f"{len(d):,}"` (app.py line 55): the row count with thousands separators. */
  function TotalPurchases(d: seq<Record>): (text: string)
    ensures ThousandsGrouped(text)
    ensures StripCommas(text) == DecimalDigits(|d|)
    ensures AllDigits(StripCommas(text)) && DigitsValue(StripCommas(text)) == |d|
  {
    FormatThousands(|d|)
  }

  /** `nunique()` of a column after `dropna`: how many different values it holds. */
  function DistinctCount<K(==)>(values: seq<K>): (n: nat)
    ensures n == |set v | v in values|
  {
    CountTableSize(Tally(values), values);
    |Tally(values)|
  }

  /** `f"{d['Customer ID'].nunique():,}"` after dropping missing ids (app.py lines 66-68). */
  function UniqueCustomers(d: seq<Record>): (text: string)
    ensures ThousandsGrouped(text)
    ensures StripCommas(text)
         == DecimalDigits(|set row | row in d && row.customerId.Some? :: row.customerId.value|)
    ensures AllDigits(StripCommas(text))
    ensures DigitsValue(StripCommas(text))
         == |set row | row in d && row.customerId.Some? :: row.customerId.value|
  {
    var ids := Present(d, CustomerKey);
    assert (set v | v in ids) == (set row | row in d && row.customerId.Some? :: row.customerId.value);
    FormatThousands(DistinctCount(ids))
  }

  /** `f"{d['Category'].nunique():,}"` after dropping missing categories (app.py lines 80-82). */
  function NumCategories(d: seq<Record>): (text: string)
    ensures ThousandsGrouped(text)
    ensures StripCommas(text)
         == DecimalDigits(|set row | row in d && row.category.Some? :: row.category.value|)
    ensures AllDigits(StripCommas(text))
    ensures DigitsValue(StripCommas(text))
         == |set row | row in d && row.category.Some? :: row.category.value|
  {
    var cats := Present(d, CategoryKey);
    assert (set v | v in cats) == (set row | row in d && row.category.Some? :: row.category.value);
    FormatThousands(DistinctCount(cats))
  }

  // ---------------------------------------------------------------------
  // Count tables
  // ---------------------------------------------------------------------

  /** `d["Item Purchased"].value_counts()` (app.py line 91). */
  function ItemCounts(d: seq<Record>): (r: seq<Group<string>>)
    ensures IsCountTable(r, Present(d, ItemKey))
  {
    Tally(Present(d, ItemKey))
  }

  /**
   * `d.groupby("Color").size()` sorted by count, largest first (app.py
   * lines 104-105).
   */
  function ColorCounts(d: seq<Record>): (r: seq<Group<string>>)
    ensures IsCountTable(r, Present(d, ColorKey))
    ensures CountsNonIncreasing(r)
  {
    var groups := Tally(Present(d, ColorKey));
    SortedCountTable(groups, Present(d, ColorKey));
    SortByCountDesc(groups)
  }

  /** `d.groupby(["Category","Item Purchased"]).size()` for the treemap (app.py line 118). */
  function CategoryItemCounts(d: seq<Record>): (r: seq<Group<(string, string)>>)
    ensures IsCountTable(r, Present(d, CategoryItemKey))
  {
    Tally(Present(d, CategoryItemKey))
  }

  /** `d.dropna(["Gender","Category"]).groupby(["Gender","Category"]).size()` (app.py lines 152-153). */
  function GenderCategoryCounts(d: seq<Record>): (r: seq<Group<(string, string)>>)
    ensures IsCountTable(r, Present(d, GenderCategoryKey))
  {
    Tally(Present(d, GenderCategoryKey))
  }

  /** The normalised discount column's `value_counts()` (app.py lines 203-209). */
  function DiscountCounts(d: seq<Record>): (r: seq<Group<RawValue>>)
    ensures IsCountTable(r, Present(d, DiscountKey))
  {
    Tally(Present(d, DiscountKey))
  }

  /** `d["Payment Method"].value_counts()` after `dropna` (app.py lines 220-221). */
  function PaymentCounts(d: seq<Record>): (r: seq<Group<string>>)
    ensures IsCountTable(r, Present(d, PaymentKey))
  {
    Tally(Present(d, PaymentKey))
  }

  /** `d.groupby(["Category","Discount Group"]).size()` (app.py lines 232-238). */
  function CategoryDiscountCounts(d: seq<Record>): (r: seq<Group<(string, RawValue)>>)
    ensures IsCountTable(r, Present(d, CategoryDiscountKey))
  {
    Tally(Present(d, CategoryDiscountKey))
  }

  /**
   * The ten most frequent (age group, item) pairs (app.py lines 180-189):
   * at most ten observed pairs, largest counts first, none left out with a
   * larger count than one kept, and all of them when there are fewer than ten.
   */
  function TopItemsByAge(d: seq<Record>): (r: seq<Group<(AgeGroup, string)>>)
    ensures |r| <= 10
    ensures var distinct := |set k | k in Present(d, AgeItemKey)|;
            |r| == if distinct < 10 then distinct else 10
    ensures CountsNonIncreasing(r)
    ensures DistinctKeys(r)
    ensures forall g :: g in r ==> 1 <= g.count == multiset(Present(d, AgeItemKey))[g.key]
    ensures forall k :: k in Present(d, AgeItemKey) && (forall g :: g in r ==> g.key != k) ==>
              forall h :: h in r ==> multiset(Present(d, AgeItemKey))[k] <= h.count
    ensures |set k | k in Present(d, AgeItemKey)| <= 10 ==>
              forall k :: k in Present(d, AgeItemKey) ==> exists g :: g in r && g.key == k
  {
    var pairs := Present(d, AgeItemKey);
    var groups := Tally(pairs);
    CountTableSize(groups, pairs);
    var r := TopByCount(groups, 10);
    TopDistinct(groups, 10);
    TopObserved(groups, pairs, 10);
    forall k | k in pairs && (forall g :: g in r ==> g.key != k)
      ensures forall h :: h in r ==> multiset(pairs)[k] <= h.count
    {
      TopLeftOut(groups, pairs, 10, k);
    }
    forall k | |groups| <= 10 && k in pairs ensures exists g :: g in r && g.key == k {
      TopCoversFew(groups, pairs, 10, k);
    }
    r
  }
}
