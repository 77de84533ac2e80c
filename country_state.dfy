/** Country and state resolution (`_country_and_state_formater`): the
    country cell is looked up in the country/state index and replaced by its
    two-letter code; the state cell becomes a state code. */
module CountryState {
  import opened Common
  import opened Ascii

  /** (full name, two-letter code, three-letter code) */
  type CountryKey = (string, string, string)

  /** Each country key with its map from state full name to state code, in
      the order the store returned them. */
  type CountryIndex = seq<(CountryKey, map<string, string>)>

  /** Python's `s in country_key` on the key triple. */
  predicate InKey(key: CountryKey, s: string)
  {
    s == key.0 || s == key.1 || s == key.2
  }

  /** `country.upper() in country_key or country.title() in country_key` */
  predicate KeyMatches(key: CountryKey, country: string)
  {
    InKey(key, Upper(country)) || InKey(key, Title(country))
  }

  /** `re.sub("[^a-zA-Z]+", "", s)` */
  function LettersOnly(s: string): (r: string)
    ensures r == Keep(s, IsLetter)
    ensures forall i :: 0 <= i < |r| ==> IsLetter(r[i])
    ensures forall c :: c in r <==> c in s && IsLetter(c)
  {
    Keep(s, IsLetter)
  }

  /** Position of the first index entry whose key matches the country. */
  function MatchingCountry(index: CountryIndex, country: string): (r: Option<nat>)
    ensures r.Some? ==> r.value < |index| && KeyMatches(index[r.value].0, country)
    ensures r.Some? ==> forall j :: 0 <= j < r.value ==> !KeyMatches(index[j].0, country)
    ensures r.None? <==> forall j :: 0 <= j < |index| ==> !KeyMatches(index[j].0, country)
  {
    FirstIndex(index, (e: (CountryKey, map<string, string>)) => KeyMatches(e.0, country))
  }

  /** The state code for a cleaned state under a matched country: a short
      state is upper-cased; a long one is looked up by its title-cased name,
      and kept as it is when the lookup fails (the `KeyError` is caught). */
  function StateCode(states: map<string, string>, state: string): (r: string)
    ensures |state| <= 2 ==> r == Upper(state)
    ensures |state| > 2 && Title(state) in states ==> r == states[Title(state)]
    ensures |state| > 2 && Title(state) !in states ==> r == state
  {
    if |state| <= 2 then Upper(state)
    else if Title(state) in states then states[Title(state)]
    else state
  }

  /** The (country, state) pair `_country_and_state_formater` returns. */
  function ResolveCountryState(index: CountryIndex, country: string, state: string): (r: (Option<string>, Option<string>))
    // the pair is resolved atomically: both null or neither
    ensures r.0.None? <==> r.1.None?
    // null exactly when a non-empty index has no matching key
    ensures r.0.None? <==> index != [] && MatchingCountry(index, LettersOnly(country)).None?
    // an empty index hands back the cleaned cells
    ensures index == [] ==> r == (Some(LettersOnly(country)), Some(LettersOnly(state)))
    // the first matching key decides the country code and the state table
    ensures MatchingCountry(index, LettersOnly(country)).Some? ==>
      var e := index[MatchingCountry(index, LettersOnly(country)).value];
      r == (Some(e.0.1), Some(StateCode(e.1, LettersOnly(state))))
  {
    var c, s := LettersOnly(country), LettersOnly(state);
    match MatchingCountry(index, c)
    case Some(i) => (Some(index[i].0.1), Some(StateCode(index[i].1, s)))
    case None => if index == [] then (Some(c), Some(s)) else (None, None)
  }

  /** `_country_and_state_formater`: scan the index with a not-found flag and
      stop at the first matching key. */
  method CountryAndStateFormat(index: CountryIndex, country: string, state: string)
    returns (c: Option<string>, s: Option<string>)
    ensures (c, s) == ResolveCountryState(index, country, state)
  {
    var ctry := LettersOnly(country);
    var st := LettersOnly(state);
    var countryNotFound := false;
    var i := 0;
    while i < |index|
      invariant 0 <= i <= |index|
      invariant forall j :: 0 <= j < i ==> !KeyMatches(index[j].0, ctry)
      invariant countryNotFound <==> i > 0
      invariant ctry == LettersOnly(country) && st == LettersOnly(state)
    {
      var key, states := index[i].0, index[i].1;
      if InKey(key, Upper(ctry)) || InKey(key, Title(ctry)) {
        assert MatchingCountry(index, ctry) == Some(i);
        ctry := key.1;
        if |st| > 2 {
          if Title(st) !in states {
            // `states[state.title()]` raises; the handler returns what it has
            return Some(ctry), Some(st);
          }
          st := states[Title(st)];
        } else {
          st := Upper(st);
        }
        return Some(ctry), Some(st);
      } else {
        countryNotFound := true;
      }
      i := i + 1;
    }
    if countryNotFound {
      return None, None;
    }
    return Some(ctry), Some(st);
  }
}
