/**
 * Loading the base table: the derived `State_Abbrev` column, the rows
 * dropped because it is missing, and the choices offered by the three
 * selectors.
 */
module Loader {
  import opened Wrappers
  import opened Records
  import opened Tables
  import opened Strings

  /** One row after `df["State_Abbrev"] = df["Location"].map(state_map)`. */
  function WithStateCode(row: Record): Record
  {
    row.(stateAbbrev := StateCode(row.location))
  }

  /** The column assignment over the whole table, row for row. */
  function WithStateCodes(rows: seq<Record>): (r: seq<Record>)
    ensures |r| == |rows|
    ensures forall i :: 0 <= i < |rows| ==> r[i] == WithStateCode(rows[i])
  {
    if rows == [] then [] else [WithStateCode(rows[0])] + WithStateCodes(rows[1..])
  }

  /** The `dropna(subset=["State_Abbrev"])` mask. */
  predicate HasStateCode(row: Record)
  {
    row.stateAbbrev.Some?
  }

  /** A raw row whose location is a state name of `state_map`. */
  predicate Mappable(row: Record)
  {
    StateCode(row.location).Some?
  }

  /** What every row of the base table satisfies after loading. */
  ghost predicate Loaded(row: Record)
  {
    && row.location.Some?
    && StateMap(row.location.value).Some?
    && row.stateAbbrev == StateMap(row.location.value)
  }

  /**
   * The code's order (derive the column, then drop rows where it is missing)
   * gives the same table as dropping the rows with unknown locations first
   * and deriving the column afterwards.
   */
  lemma {:induction false} DeriveThenDrop(raw: seq<Record>)
    ensures Keep(WithStateCodes(raw), HasStateCode) == WithStateCodes(Keep(raw, Mappable))
  {
    if raw != [] {
      DeriveThenDrop(raw[1..]);
      var tagged := WithStateCodes(raw);
      assert tagged[1..] == WithStateCodes(raw[1..]);
      if Mappable(raw[0]) {
        assert Keep(raw, Mappable) == [raw[0]] + Keep(raw[1..], Mappable);
        assert ([raw[0]] + Keep(raw[1..], Mappable))[1..] == Keep(raw[1..], Mappable);
      } else {
        assert Keep(raw, Mappable) == Keep(raw[1..], Mappable);
      }
    }
  }

  /**
   * On loaded rows the state code determines the location, so grouping by
   * (Location, State_Abbrev, ...) and by (State_Abbrev, ...) form the same groups.
   */
  lemma SameCodeSameLocation(x: Record, y: Record)
    requires Loaded(x) && Loaded(y) && x.stateAbbrev == y.stateAbbrev
    ensures x.location == y.location
  {
    StateMapInjective(x.location.value, y.location.value);
  }

  /**
   * The loader (app.py lines 27-28): derive `State_Abbrev`, then rebind the
   * table to the rows where it is present.
   */
  method Load(raw: seq<Record>) returns (df: seq<Record>)
    ensures forall row :: row in df ==> Loaded(row)
    ensures forall x :: x in raw ==> (WithStateCode(x) in df <==> Mappable(x))
    ensures forall row :: row in df ==> exists x :: x in raw && Mappable(x) && row == WithStateCode(x)
    ensures df == WithStateCodes(Keep(raw, Mappable))
    ensures IsSubsequence(df, WithStateCodes(raw))
  {
    df := WithStateCodes(raw);
    df := Keep(df, HasStateCode);
    KeepIsSubsequence(WithStateCodes(raw), HasStateCode);
    DeriveThenDrop(raw);
    forall x | x in raw ensures WithStateCode(x) in df <==> Mappable(x) {
      SurvivesIffMappable(raw, x);
    }
    forall row | row in df ensures exists x :: x in raw && Mappable(x) && row == WithStateCode(x) {
      KeptFromMappable(raw, row);
    }
  }

  /** A raw row survives loading exactly when its location maps. */
  lemma SurvivesIffMappable(raw: seq<Record>, x: Record)
    requires x in raw
    ensures WithStateCode(x) in Keep(WithStateCodes(raw), HasStateCode) <==> Mappable(x)
  {
    var i :| 0 <= i < |raw| && raw[i] == x;
    assert WithStateCodes(raw)[i] == WithStateCode(x);
  }

  /** Every loaded row is the tagged form of a mappable raw row. */
  lemma KeptFromMappable(raw: seq<Record>, row: Record)
    requires row in WithStateCodes(Keep(raw, Mappable))
    ensures exists x :: x in raw && Mappable(x) && row == WithStateCode(x)
  {
    var kept := Keep(raw, Mappable);
    var i :| 0 <= i < |kept| && WithStateCodes(kept)[i] == row;
    assert kept[i] in raw;
  }

  /** The non-missing values of one selector column. */
  function ColumnValues(df: seq<Record>, c: Column): (vs: seq<string>)
    ensures forall v :: v in vs <==> exists row :: row in df && Field(row, c) == Some(v)
  {
    Present(df, row => Field(row, c))
  }

  /**
   * `["All"] + sorted(df[c].dropna().unique())`: the sentinel, then every
   * value observed in the column once, in ascending order.
   */
  function Choices(df: seq<Record>, c: Column): (r: seq<string>)
    ensures |r| >= 1 && r[0] == "All"
    ensures StrictlySorted(r[1..])
    ensures forall i, j :: 1 <= i < j < |r| ==> r[i] != r[j]
    ensures forall v :: v in r[1..] <==> exists row :: row in df && Field(row, c) == Some(v)
  {
    var vs := SortedDistinct(ColumnValues(df, c));
    var r := ["All"] + vs;
    assert r[1..] == vs;
    forall i, j | 1 <= i < j < |r| ensures r[i] != r[j] {
      StrictlySortedDistinct(vs, i - 1, j - 1);
    }
    r
  }
}
