/**
 * The data model of the shopping-behaviour table: one `Record` per row of
 * the spreadsheet, every cell optional, and the fixed lookup from US state
 * name to its two-letter postal code.
 */
module Records {
  import opened Wrappers

  /**
   * A `Discount Applied` cell as read from the spreadsheet: a number or a
   * piece of text.
   */
  datatype RawValue = Num(n: int) | Text(s: string)

  /**
   * One transaction. A field is `None` where the cell is missing. Only the
   * columns the modelled routines read are kept; `stateAbbrev` is the column
   * the loader derives from `location`.
   */
  datatype Record = Record(
    customerId: Option<int>,
    age: Option<int>,
    gender: Option<string>,
    item: Option<string>,
    category: Option<string>,
    color: Option<string>,
    season: Option<string>,
    location: Option<string>,
    shipping: Option<string>,
    payment: Option<string>,
    discount: Option<RawValue>,
    stateAbbrev: Option<string>)

  /** The three columns a user can filter on. */
  datatype Column = Season | Gender | Category

  function Field(r: Record, c: Column): Option<string>
  {
    match c
    case Season => r.season
    case Gender => r.gender
    case Category => r.category
  }

  /** `state_map`: the 50 US state names and their postal codes; any other name has none. */
  function StateMap(name: string): Option<string>
  {
    match name
    case "Alabama" => Some("AL")
    case "Alaska" => Some("AK")
    case "Arizona" => Some("AZ")
    case "Arkansas" => Some("AR")
    case "California" => Some("CA")
    case "Colorado" => Some("CO")
    case "Connecticut" => Some("CT")
    case "Delaware" => Some("DE")
    case "Florida" => Some("FL")
    case "Georgia" => Some("GA")
    case "Hawaii" => Some("HI")
    case "Idaho" => Some("ID")
    case "Illinois" => Some("IL")
    case "Indiana" => Some("IN")
    case "Iowa" => Some("IA")
    case "Kansas" => Some("KS")
    case "Kentucky" => Some("KY")
    case "Louisiana" => Some("LA")
    case "Maine" => Some("ME")
    case "Maryland" => Some("MD")
    case "Massachusetts" => Some("MA")
    case "Michigan" => Some("MI")
    case "Minnesota" => Some("MN")
    case "Mississippi" => Some("MS")
    case "Missouri" => Some("MO")
    case "Montana" => Some("MT")
    case "Nebraska" => Some("NE")
    case "Nevada" => Some("NV")
    case "New Hampshire" => Some("NH")
    case "New Jersey" => Some("NJ")
    case "New Mexico" => Some("NM")
    case "New York" => Some("NY")
    case "North Carolina" => Some("NC")
    case "North Dakota" => Some("ND")
    case "Ohio" => Some("OH")
    case "Oklahoma" => Some("OK")
    case "Oregon" => Some("OR")
    case "Pennsylvania" => Some("PA")
    case "Rhode Island" => Some("RI")
    case "South Carolina" => Some("SC")
    case "South Dakota" => Some("SD")
    case "Tennessee" => Some("TN")
    case "Texas" => Some("TX")
    case "Utah" => Some("UT")
    case "Vermont" => Some("VT")
    case "Virginia" => Some("VA")
    case "Washington" => Some("WA")
    case "West Virginia" => Some("WV")
    case "Wisconsin" => Some("WI")
    case "Wyoming" => Some("WY")
    case _ => None
  }

  /** The reverse lookup, postal code to state name. */
  function StateName(code: string): Option<string>
  {
    match code
    case "AL" => Some("Alabama")
    case "AK" => Some("Alaska")
    case "AZ" => Some("Arizona")
    case "AR" => Some("Arkansas")
    case "CA" => Some("California")
    case "CO" => Some("Colorado")
    case "CT" => Some("Connecticut")
    case "DE" => Some("Delaware")
    case "FL" => Some("Florida")
    case "GA" => Some("Georgia")
    case "HI" => Some("Hawaii")
    case "ID" => Some("Idaho")
    case "IL" => Some("Illinois")
    case "IN" => Some("Indiana")
    case "IA" => Some("Iowa")
    case "KS" => Some("Kansas")
    case "KY" => Some("Kentucky")
    case "LA" => Some("Louisiana")
    case "ME" => Some("Maine")
    case "MD" => Some("Maryland")
    case "MA" => Some("Massachusetts")
    case "MI" => Some("Michigan")
    case "MN" => Some("Minnesota")
    case "MS" => Some("Mississippi")
    case "MO" => Some("Missouri")
    case "MT" => Some("Montana")
    case "NE" => Some("Nebraska")
    case "NV" => Some("Nevada")
    case "NH" => Some("New Hampshire")
    case "NJ" => Some("New Jersey")
    case "NM" => Some("New Mexico")
    case "NY" => Some("New York")
    case "NC" => Some("North Carolina")
    case "ND" => Some("North Dakota")
    case "OH" => Some("Ohio")
    case "OK" => Some("Oklahoma")
    case "OR" => Some("Oregon")
    case "PA" => Some("Pennsylvania")
    case "RI" => Some("Rhode Island")
    case "SC" => Some("South Carolina")
    case "SD" => Some("South Dakota")
    case "TN" => Some("Tennessee")
    case "TX" => Some("Texas")
    case "UT" => Some("Utah")
    case "VT" => Some("Vermont")
    case "VA" => Some("Virginia")
    case "WA" => Some("Washington")
    case "WV" => Some("West Virginia")
    case "WI" => Some("Wisconsin")
    case "WY" => Some("Wyoming")
    case _ => None
  }

  /** Every code `state_map` gives is two letters and names its state back through `StateName`. */
  lemma StateMapRoundTrip(name: string)
    ensures StateMap(name).Some? ==> |StateMap(name).value| == 2
    ensures StateMap(name).Some? ==> forall i :: 0 <= i < 2 ==> 'A' <= StateMap(name).value[i] <= 'Z'
    ensures StateMap(name).Some? ==> StateName(StateMap(name).value) == Some(name)
  {
  }

  /**
   * Every name the reverse table gives maps back to its code, so the names
   * `state_map` knows are exactly the names `StateName` returns; any other
   * name has no code.
   */
  lemma StateNameRoundTrip(code: string)
    ensures StateName(code).Some? ==> StateMap(StateName(code).value) == Some(code)
  {
  }

  /** Every code `state_map` gives names its state back, so the lookup is one-to-one. */
  lemma StateMapInjective(a: string, b: string)
    requires StateMap(a).Some? && StateMap(a) == StateMap(b)
    ensures a == b
  {
    StateMapRoundTrip(a);
    StateMapRoundTrip(b);
  }

  /** `df["Location"].map(state_map)` for one row: missing or unknown names give no code. */
  function StateCode(location: Option<string>): (code: Option<string>)
    ensures code.Some? <==> location.Some? && StateMap(location.value).Some?
    ensures code.Some? ==> StateName(code.value) == location
  {
    if location.Some? then StateMap(location.value) else None
  }
}
