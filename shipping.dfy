/**
 * The data behind the "Most Popular Shipping Type by U.S. State" map
 * (app.py lines 251-254): for every state code in the filtered table, one
 * shipping type that no other type of that state outnumbers.
 */
module Shipping {
  import opened Wrappers
  import opened Records
  import opened Tables
  import opened Strings

  /** The (State_Abbrev, Shipping Type) key; missing when either cell is. */
  function StateShippingKey(row: Record): Option<(string, string)>
  {
    if row.stateAbbrev.Some? && row.shipping.Some? then
      Some((row.stateAbbrev.value, row.shipping.value))
    else None
  }

  function StateOf(pair: (string, string)): Option<string>
  {
    Some(pair.0)
  }

  /** The shipping type of a pair belonging to `state`. */
  function ShippingOf(state: string): ((string, string)) -> Option<string>
  {
    (pair: (string, string)) => if pair.0 == state then Some(pair.1) else None
  }

  /** How many rows have state code `s` and shipping type `t`. */
  ghost function PairCount(pairs: seq<(string, string)>, s: string, t: string): nat
  {
    multiset(pairs)[(s, t)]
  }

  /** How often `t` occurs among the shipping types of `state` is how often the pair occurs. */
  lemma {:induction false} ShippingOfCounts(pairs: seq<(string, string)>, state: string, t: string)
    ensures multiset(Present(pairs, ShippingOf(state)))[t] == PairCount(pairs, state, t)
  {
    if pairs != [] {
      ShippingOfCounts(pairs[1..], state, t);
      assert pairs == [pairs[0]] + pairs[1..];
    }
  }

  ghost predicate HasState(pairs: seq<(string, string)>, s: string)
  {
    exists p :: p in pairs && p.0 == s
  }

  /** One row of the map: a state code, its chosen shipping type and how often that type occurs. */
  datatype ShippingRow = ShippingRow(state: string, shipping: string, count: nat)

  /** The map row for one state: a shipping type of that state that no other type outnumbers. */
  function ModeOf(pairs: seq<(string, string)>, s: string): (x: ShippingRow)
    requires HasState(pairs, s)
    ensures x.state == s
    ensures 1 <= x.count == PairCount(pairs, s, x.shipping)
    ensures forall t :: PairCount(pairs, s, t) <= x.count
  {
    var types := Present(pairs, ShippingOf(s));
    var groups := Tally(types);
    var p :| p in pairs && p.0 == s;
    assert ShippingOf(s)(p) == Some(p.1);
    assert p.1 in types;
    var best := MaxGroup(groups);
    ShippingOfCounts(pairs, s, best.key);
    forall t ensures PairCount(pairs, s, t) <= best.count {
      ShippingOfCounts(pairs, s, t);
      if t in types {
        var h :| h in groups && h.key == t;
      }
    }
    ShippingRow(s, best.key, best.count)
  }

  /** For each state of `states`, in order, its map row. */
  function TopPerState(pairs: seq<(string, string)>, states: seq<string>): (r: seq<ShippingRow>)
    requires forall s :: s in states ==> HasState(pairs, s)
    ensures |r| == |states|
    ensures forall i :: 0 <= i < |r| ==> r[i].state == states[i]
    ensures forall x :: x in r ==> 1 <= x.count == PairCount(pairs, x.state, x.shipping)
    ensures forall x, t :: x in r ==> PairCount(pairs, x.state, t) <= x.count
  {
    if states == [] then []
    else
      assert states[0] in states;
      assert forall s :: s in states[1..] ==> s in states;
      [ModeOf(pairs, states[0])] + TopPerState(pairs, states[1..])
  }

  /**
   * `groupby([..., "State_Abbrev", "Shipping Type"]).size()`, sorted by
   * state and then by count, largest first, keeping the first row of each
   * state (app.py lines 251-254).
   */
  function ShippingByState(d: seq<Record>): (r: seq<ShippingRow>)
    ensures forall x :: x in r ==>
              1 <= x.count == PairCount(Present(d, StateShippingKey), x.state, x.shipping)
    ensures forall x, t :: x in r ==>
              PairCount(Present(d, StateShippingKey), x.state, t) <= x.count
  {
    var pairs := Present(d, StateShippingKey);
    var states := SortedDistinct(Present(pairs, StateOf));
    StatesOfPairs(d, pairs, states);
    TopPerState(pairs, states)
  }

  /** The map rows list the state codes in strictly ascending order. */
  lemma ShippingStatesAscending(d: seq<Record>)
    ensures var r := ShippingByState(d);
            forall i, j :: 0 <= i < j < |r| ==> Less(r[i].state, r[j].state)
  {
    var pairs := Present(d, StateShippingKey);
    var states := SortedDistinct(Present(pairs, StateOf));
    StatesOfPairs(d, pairs, states);
    RowsFollowStates(states, TopPerState(pairs, states));
  }

  /** A state has a map row exactly when some row has that state code and a shipping type. */
  lemma ShippingStatesCovered(d: seq<Record>, s: string)
    ensures (exists x :: x in ShippingByState(d) && x.state == s)
        <==> (exists row :: row in d && row.stateAbbrev == Some(s) && row.shipping.Some?)
  {
    var pairs := Present(d, StateShippingKey);
    var states := SortedDistinct(Present(pairs, StateOf));
    StatesOfPairs(d, pairs, states);
    var r := TopPerState(pairs, states);
    assert r == ShippingByState(d);
    RowsFollowStates(states, r);
    assert (exists x :: x in r && x.state == s) <==> s in states;
  }

  /** Rows that list `states` in order inherit its order and its members. */
  lemma RowsFollowStates(states: seq<string>, r: seq<ShippingRow>)
    requires StrictlySorted(states)
    requires |r| == |states| && forall i :: 0 <= i < |r| ==> r[i].state == states[i]
    ensures forall i, j :: 0 <= i < j < |r| ==> Less(r[i].state, r[j].state)
    ensures forall s :: (exists x :: x in r && x.state == s) <==> s in states
  {
    forall s | s in states ensures exists x :: x in r && x.state == s {
      var i :| 0 <= i < |states| && states[i] == s;
      assert r[i] in r;
    }
  }

  /** The states listed are exactly the state codes of rows that have a shipping type. */
  lemma StatesOfPairs(d: seq<Record>, pairs: seq<(string, string)>, states: seq<string>)
    requires pairs == Present(d, StateShippingKey)
    requires states == SortedDistinct(Present(pairs, StateOf))
    ensures forall s :: s in states ==> HasState(pairs, s)
    ensures forall s :: s in states <==> exists row :: row in d && row.stateAbbrev == Some(s) && row.shipping.Some?
  {
    forall s | s in states ensures HasState(pairs, s) {
      var p :| p in pairs && StateOf(p) == Some(s);
    }
    forall s | (exists row :: row in d && row.stateAbbrev == Some(s) && row.shipping.Some?)
      ensures s in states
    {
      var row :| row in d && row.stateAbbrev == Some(s) && row.shipping.Some?;
      assert StateShippingKey(row) == Some((s, row.shipping.value));
      assert StateOf((s, row.shipping.value)) == Some(s);
    }
    forall s | s in states
      ensures exists row :: row in d && row.stateAbbrev == Some(s) && row.shipping.Some?
    {
      var p :| p in pairs && p.0 == s;
      var row :| row in d && StateShippingKey(row) == Some(p);
    }
  }
}
