/**
 * The filter engine: the current selection of the three selectors narrows
 * the base table to the rows that match every selection other than "All".
 */
module Filter {
  import opened Wrappers
  import opened Records
  import opened Tables

  /** The sentinel that leaves a column unconstrained. */
  const All: string := "All"

  /** The values of the Season, Gender and Category selectors. */
  datatype Selection = Selection(season: string, gender: string, category: string)

  function Chosen(sel: Selection, c: Column): string
  {
    match c
    case Season => sel.season
    case Gender => sel.gender
    case Category => sel.category
  }

  /** The mask `d[c] == v`: a missing cell equals nothing. */
  function Equals(c: Column, v: string): Record -> bool
  {
    row => Field(row, c) == Some(v)
  }

  /** `d[d[c] == v]`: the rows whose cell in column `c` is exactly `v`, in order. */
  function Where(d: seq<Record>, c: Column, v: string): (r: seq<Record>)
    ensures forall row :: row in r <==> row in d && Field(row, c) == Some(v)
    ensures forall row :: multiset(r)[row] == if Field(row, c) == Some(v) then multiset(d)[row] else 0
    ensures IsSubsequence(r, d)
  {
    KeepIsSubsequence(d, Equals(c, v));
    Keep(d, Equals(c, v))
  }

  /** The selection on column `c` admits `row`. */
  predicate Passes(sel: Selection, c: Column, row: Record)
  {
    Chosen(sel, c) == All || Field(row, c) == Some(Chosen(sel, c))
  }

  /** The three constraints joined with AND. */
  predicate Admits(sel: Selection, row: Record)
  {
    Passes(sel, Season, row) && Passes(sel, Gender, row) && Passes(sel, Category, row)
  }

  /** The constraint on column `c` as a row mask. */
  function PassesOn(sel: Selection, c: Column): Record -> bool
  {
    row => Passes(sel, c, row)
  }

  /** The whole selection as a row mask. */
  function Mask(sel: Selection): Record -> bool
  {
    row => Admits(sel, row)
  }

  /** One step of the narrowing: no change for "All", otherwise `Where` on that column. */
  function Narrow(d: seq<Record>, sel: Selection, c: Column): seq<Record>
  {
    if Chosen(sel, c) == All then d else Where(d, c, Chosen(sel, c))
  }

  /** A step keeps exactly the rows that pass that column's constraint. */
  lemma NarrowKeeps(d: seq<Record>, sel: Selection, c: Column)
    ensures Narrow(d, sel, c) == Keep(d, PassesOn(sel, c))
  {
    if Chosen(sel, c) == All {
      KeepAll(d, PassesOn(sel, c));
    } else {
      KeepCongruent(d, PassesOn(sel, c), Equals(c, Chosen(sel, c)));
    }
  }

  /** The three steps in a row keep exactly the rows the selection admits. */
  lemma NarrowThree(df: seq<Record>, sel: Selection)
    ensures Narrow(Narrow(Narrow(df, sel, Season), sel, Gender), sel, Category)
         == Keep(df, Mask(sel))
  {
    var p1, p2, p3 := PassesOn(sel, Season), PassesOn(sel, Gender), PassesOn(sel, Category);
    NarrowKeeps(df, sel, Season);
    NarrowKeeps(Keep(df, p1), sel, Gender);
    NarrowKeeps(Keep(Keep(df, p1), p2), sel, Category);
    KeepKeep(df, p1, p2);
    KeepKeep(df, Both(p1, p2), p3);
    assert forall row :: Both(Both(p1, p2), p3)(row) == Mask(sel)(row);
    KeepCongruent(df, Both(Both(p1, p2), p3), Mask(sel));
  }

  /**
   * `get_filtered()` (app.py lines 30-38): a copy of the table narrowed
   * column by column. The result keeps exactly the rows the selection
   * admits, in their original order.
   */
  method GetFiltered(df: seq<Record>, sel: Selection) returns (d: seq<Record>)
    ensures IsSubsequence(d, df)
    ensures forall row :: row in d ==> row in df && Admits(sel, row)
    ensures forall row :: row in df && Admits(sel, row) ==> row in d
    ensures d == Keep(df, Mask(sel))
    ensures sel == Selection(All, All, All) ==> d == df
  {
    d := df;
    if sel.season != All {
      d := Where(d, Season, sel.season);
    }
    assert d == Narrow(df, sel, Season);
    if sel.gender != All {
      d := Where(d, Gender, sel.gender);
    }
    assert d == Narrow(Narrow(df, sel, Season), sel, Gender);
    if sel.category != All {
      d := Where(d, Category, sel.category);
    }
    assert d == Narrow(Narrow(Narrow(df, sel, Season), sel, Gender), sel, Category);
    NarrowThree(df, sel);
    KeepIsSubsequence(df, Mask(sel));
    if sel == Selection(All, All, All) {
      KeepAll(df, Mask(sel));
    }
  }

  /** Filtering the filtered table again with the same selection changes nothing. */
  lemma FilterIdempotent(df: seq<Record>, sel: Selection)
    ensures Keep(Keep(df, Mask(sel)), Mask(sel))
         == Keep(df, Mask(sel))
  {
    KeepIdempotent(df, Mask(sel));
  }
}
