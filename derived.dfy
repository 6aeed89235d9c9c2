/**
 * The two columns the dashboard derives on demand: the age group that
 * `pd.cut(age, bins=[0,20,30,40,50,60,100], right=False)` assigns, and the
 * discount status that the `replace` table of the discount charts produces.
 */
module Derived {
  import opened Wrappers
  import opened Records

  // ---------------------------------------------------------------------
  // Age groups
  // ---------------------------------------------------------------------

  /** The six categories of the cut, in bin order. */
  datatype AgeGroup = Under20 | Twenties | Thirties | Forties | Fifties | SixtyPlus

  /** The bin edges; bin i is the half-open interval [Bins[i], Bins[i + 1]). */
  const Bins: seq<int> := [0, 20, 30, 40, 50, 60, 100]

  const Labels: seq<string> := ["<20", "20-29", "30-39", "40-49", "50-59", "60+"]

  /** The position of a group among the bins. */
  function BinIndex(g: AgeGroup): (i: nat)
    ensures i < 6
  {
    match g
    case Under20 => 0
    case Twenties => 1
    case Thirties => 2
    case Forties => 3
    case Fifties => 4
    case SixtyPlus => 5
  }

  function Label(g: AgeGroup): string
  {
    Labels[BinIndex(g)]
  }

  /**
   * The age group of an age: the bin whose half-open interval holds it, and
   * none for ages below the first edge or at or above the last.
   */
  function AgeGroupOf(age: int): (g: Option<AgeGroup>)
    ensures g.None? <==> age < Bins[0] || Bins[6] <= age
    ensures forall b :: g == Some(b) <==> Bins[BinIndex(b)] <= age < Bins[BinIndex(b) + 1]
  {
    if age < 0 || 100 <= age then None
    else if age < 20 then Some(Under20)
    else if age < 30 then Some(Twenties)
    else if age < 40 then Some(Thirties)
    else if age < 50 then Some(Forties)
    else if age < 60 then Some(Fifties)
    else Some(SixtyPlus)
  }

  /** Each label belongs to exactly one group. */
  lemma LabelsDistinct(a: AgeGroup, b: AgeGroup)
    requires Label(a) == Label(b)
    ensures a == b
  {
    assert Labels[BinIndex(a)] == Labels[BinIndex(b)];
    assert forall i, j :: 0 <= i < j < 6 ==> Labels[i] != Labels[j] by {
      assert Labels[0][0] == '<' && Labels[5][1] == '0';
      assert Labels[1][0] == '2' && Labels[2][0] == '3' && Labels[3][0] == '4' && Labels[4][0] == '5';
    }
  }

  /** The interval ends are closed on the left and open on the right. */
  lemma AgeGroupBoundaries()
    ensures AgeGroupOf(19) == Some(Under20) && Label(Under20) == "<20"
    ensures AgeGroupOf(20) == Some(Twenties) && Label(Twenties) == "20-29"
    ensures AgeGroupOf(59) == Some(Fifties) && Label(Fifties) == "50-59"
    ensures AgeGroupOf(60) == Some(SixtyPlus) && Label(SixtyPlus) == "60+"
    ensures AgeGroupOf(99) == Some(SixtyPlus)
    ensures AgeGroupOf(0) == Some(Under20)
    ensures AgeGroupOf(-1) == None && AgeGroupOf(100) == None
  {
  }

  // ---------------------------------------------------------------------
  // Discount status
  // ---------------------------------------------------------------------

  const NoDiscount: RawValue := Text("No Discount")
  const DiscountApplied: RawValue := Text("Discount Applied")

  /** The raw spellings the `replace` table rewrites to each status. */
  const NoSpellings: set<RawValue> := {Num(0), Text("No"), Text("False")}
  const YesSpellings: set<RawValue> := {Num(1), Text("Yes"), Text("True")}

  /** The dictionary passed to `replace`. */
  const Replacements: map<RawValue, RawValue> := map[
    Num(0) := NoDiscount, Num(1) := DiscountApplied,
    Text("No") := NoDiscount, Text("Yes") := DiscountApplied,
    Text("False") := NoDiscount, Text("True") := DiscountApplied
  ]

  /**
   * `Series.replace(Replacements)` on one cell: a listed value is rewritten,
   * any other value is left as it is.
   */
  function NormalizeDiscount(v: RawValue): (r: RawValue)
    ensures v in NoSpellings ==> r == NoDiscount
    ensures v in YesSpellings ==> r == DiscountApplied
    ensures v !in NoSpellings + YesSpellings ==> r == v
  {
    if v in Replacements then Replacements[v] else v
  }

  /** The cells the chart counts as "No Discount" are exactly these. */
  lemma NoDiscountExactly(v: RawValue)
    ensures NormalizeDiscount(v) == NoDiscount <==> v in NoSpellings || v == NoDiscount
  {
  }

  /** The cells the chart counts as "Discount Applied" are exactly these. */
  lemma DiscountAppliedExactly(v: RawValue)
    ensures NormalizeDiscount(v) == DiscountApplied <==> v in YesSpellings || v == DiscountApplied
  {
  }

  /** Normalising an already normalised cell changes nothing. */
  lemma NormalizeIdempotent(v: RawValue)
    ensures NormalizeDiscount(NormalizeDiscount(v)) == NormalizeDiscount(v)
  {
  }
}
