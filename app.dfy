/**
 * The state of App.tsx: the slots `ticker`, `loading`, `error`, `searchResult`
 * and `data`, and the handlers that change them. Each handler is a method of
 * class App, proved to produce the state that a pure transition function gives
 * for the old state; the properties of the handlers are lemmas about those
 * functions. The valuation shown is recomputed from `data` on every read.
 */
module AppState {
  import opened Wrappers
  import opened Types
  import opened JsRuntime
  import opened Valuation
  import opened GeminiService

  // Long messages are written as concatenations of short literals, which the
  // verifier can inspect character by character.
  const DataNotFound: string :=
    "Could not find sufficient data " + "for this ticker. Please try again " + "or enter details manually."
  const SecurityAlert: string :=
    "SECURITY ALERT: Your API Key has been " + "blocked by Google because it was " + "detected publicly. Please generate "
    + "a NEW key at aistudio.google.com, " + "update your Netlify Environment " + "Variables, and Redeploy."
  const ConfigurationError: string :=
    "Configuration Error: API Key not " + "found. Please check your Netlify " + "Environment Variables."
  const GenericError: string :=
    "Unable to fetch live data. " + "Please enter values manually."

  // ---------------------------------------------------------------------------
  // error classification
  // ---------------------------------------------------------------------------

  /** `err.message || JSON.stringify(err)`. */
  function ErrorMessageOf(e: JsError): (r: string)
    ensures e.message != "" ==> r == e.message
    ensures e.message == "" ==> r == e.serialized
  {
    if e.message != "" then e.message else e.serialized
  }

  /** The user-facing message for a thrown error, chosen by substring. */
  function ClassifyError(errorMessage: string): (r: string)
    ensures r == SecurityAlert || r == ConfigurationError || r == GenericError
  {
    if Includes(errorMessage, "leaked") || Includes(errorMessage, "reported as leaked") then SecurityAlert
    else if Includes(errorMessage, "API Key") then ConfigurationError
    else GenericError
  }

  /**
   * The three-way classification: "leaked" wins over "API Key", and anything
   * mentioning neither is the generic message. The second test of the source,
   * "reported as leaked", can never decide anything on its own.
   */
  lemma ClassifyErrorCases(errorMessage: string)
    ensures ClassifyError(errorMessage) == SecurityAlert <==> Includes(errorMessage, "leaked")
    ensures ClassifyError(errorMessage) == ConfigurationError
        <==> !Includes(errorMessage, "leaked") && Includes(errorMessage, "API Key")
    ensures ClassifyError(errorMessage) == GenericError
        <==> !Includes(errorMessage, "leaked") && !Includes(errorMessage, "API Key")
  {
    if Includes(errorMessage, "reported as leaked") {
      assert "reported as leaked" == "reported as " + "leaked";
      IncludesRight(errorMessage, "reported as ", "leaked");
    }
    assert SecurityAlert != ConfigurationError && SecurityAlert != GenericError && ConfigurationError != GenericError by {
      assert SecurityAlert[0] != ConfigurationError[0] && SecurityAlert[0] != GenericError[0]
          && ConfigurationError[0] != GenericError[0];
    }
  }

  /** A text that contains `sub` contains each character of `sub`. */
  lemma {:induction false} IncludesChar(s: string, sub: string, c: char)
    requires Includes(s, sub) && c in sub
    ensures c in s
    decreases |s|
  {
    if sub <= s {
      var i :| 0 <= i < |sub| && sub[i] == c;
      assert s[i] == c;
    } else {
      IncludesChar(s[1..], sub, c);
      assert s[1..] <= s[1..] && (c in s[1..] ==> c in s);
    }
  }

  /** A missing API key is reported as the configuration error, not as a leak. */
  lemma MissingKeyIsConfigurationError()
    ensures ClassifyError(MissingKeyMessage) == ConfigurationError
  {
    MissingKeyMentionsApiKey();
    assert 'k' !in "API Key is missing. " && 'k' !in "Please configure the API_KEY " && 'k' !in "environment variable.";
    assert 'k' !in MissingKeyMessage;
    if Includes(MissingKeyMessage, "leaked") {
      IncludesChar(MissingKeyMessage, "leaked", 'k');
    }
    ClassifyErrorCases(MissingKeyMessage);
  }

  // ---------------------------------------------------------------------------
  // field edits
  // ---------------------------------------------------------------------------

  /** The keys `updateField` is called with. */
  datatype NumericField = Price | FcfPerShare | Beta | RiskFreeRate | MarketRiskPremium

  function FieldValue(d: StockData, f: NumericField): real {
    match f
    case Price => d.price
    case FcfPerShare => d.fcfPerShare
    case Beta => d.beta
    case RiskFreeRate => d.riskFreeRate
    case MarketRiskPremium => d.marketRiskPremium
  }

  /** `{ ...data, [field]: value }`: the named field takes the value and nothing else changes. */
  function WithField(d: StockData, f: NumericField, v: real): (r: StockData)
    ensures FieldValue(r, f) == v
    ensures forall g :: g != f ==> FieldValue(r, g) == FieldValue(d, g)
    ensures r.ticker == d.ticker && r.currency == d.currency
  {
    match f
    case Price => d.(price := v)
    case FcfPerShare => d.(fcfPerShare := v)
    case Beta => d.(beta := v)
    case RiskFreeRate => d.(riskFreeRate := v)
    case MarketRiskPremium => d.(marketRiskPremium := v)
  }

  // ---------------------------------------------------------------------------
  // the state and its transitions
  // ---------------------------------------------------------------------------

  datatype Snapshot = Snapshot(
    ticker: string,
    loading: bool,
    error: Option<string>,
    searchResult: Option<SearchResult>,
    data: StockData)

  /** The state on first render. */
  const Initial: Snapshot := Snapshot("", false, None, None, DefaultData)

  /**
   * What holds between events: nothing is loading, and a stored search result
   * carries data and comes with no error.
   */
  predicate Valid(s: Snapshot) {
    !s.loading && (s.searchResult.Some? ==> s.searchResult.value.data.Some? && s.error.None?)
  }

  /** The ticker input's onChange. */
  function WithTicker(s: Snapshot, text: string): Snapshot {
    s.(ticker := text)
  }

  /** handleReset. */
  function Reset(s: Snapshot): Snapshot {
    s.(data := DefaultData, ticker := "", searchResult := None, error := None)
  }

  /** updateField: an edit that parseFloat rejects is ignored. */
  function Edit(s: Snapshot, f: NumericField, text: string, lib: Library): Snapshot {
    var numValue := lib.parseFloat(text);
    if numValue.Some? then s.(data := WithField(s.data, f, numValue.value)) else s
  }

  /** handleSearch, from the submit to the `finally` clause, with the fetch's outcome given. */
  function Search(s: Snapshot, apiKey: Option<string>, reply: Reply, lib: Library): (r: Snapshot)
    ensures r.ticker == s.ticker
    ensures r.data == s.data || (r.searchResult.Some? && r.searchResult.value.data == Some(r.data))
  {
    if Trim(s.ticker) == "" then s
    else Settle(s, FetchStockData(s.ticker, apiKey, reply, lib))
  }

  /** The state once the fetch has settled with `outcome` and the loading flag is cleared. */
  function Settle(s: Snapshot, outcome: FetchOutcome): (r: Snapshot)
    ensures r.ticker == s.ticker && !r.loading
    ensures r.data == s.data || (r.searchResult.Some? && r.searchResult.value.data == Some(r.data))
  {
    match outcome
    case Resolved(result) =>
      if result.data.Some? then
        s.(loading := false, error := None, searchResult := Some(result), data := result.data.value)
      else
        s.(loading := false, error := Some(DataNotFound), searchResult := None)
    case Rejected(e) =>
      s.(loading := false, error := Some(ClassifyError(ErrorMessageOf(e))), searchResult := None)
  }

  /** Settling overwrites the progress fields, so only the ticker and the data it starts from matter. */
  lemma SettleIgnoresProgress(s: Snapshot, t: Snapshot)
    requires s.ticker == t.ticker && s.data == t.data
    ensures forall outcome :: Settle(s, outcome) == Settle(t, outcome)
  {
  }

  /** Every handler keeps the state valid, starting from the initial one. */
  lemma TransitionsPreserveValid(s: Snapshot, text: string, f: NumericField,
                                 apiKey: Option<string>, reply: Reply, lib: Library)
    requires Valid(s)
    ensures Valid(Initial)
    ensures Valid(WithTicker(s, text)) && Valid(Reset(s)) && Valid(Edit(s, f, text, lib))
    ensures Valid(Search(s, apiKey, reply, lib))
  {
    if Trim(s.ticker) != "" {
      var outcome := FetchStockData(s.ticker, apiKey, reply, lib);
      var r := Search(s, apiKey, reply, lib);
      if outcome.Resolved? && outcome.result.data.Some? {
        assert r == s.(loading := false, error := None, searchResult := Some(outcome.result),
                       data := outcome.result.data.value);
      } else {
        assert r.searchResult.None? && !r.loading;
      }
    }
  }

  /** Reset restores the default record, clears ticker, result and error, and is idempotent. */
  lemma ResetProperties(s: Snapshot)
    ensures Reset(s).data == DefaultData && Reset(s).ticker == ""
    ensures Reset(s).searchResult.None? && Reset(s).error.None?
    ensures Reset(s).loading == s.loading
    ensures Reset(Reset(s)) == Reset(s)
  {
  }

  /** An edit parseFloat rejects changes nothing; one it accepts changes just the named field. */
  lemma EditProperties(s: Snapshot, f: NumericField, text: string, lib: Library)
    ensures lib.parseFloat(text).None? ==> Edit(s, f, text, lib) == s
    ensures lib.parseFloat(text).Some? ==>
      var r := Edit(s, f, text, lib);
      && FieldValue(r.data, f) == lib.parseFloat(text).value
      && (forall g :: g != f ==> FieldValue(r.data, g) == FieldValue(s.data, g))
      && r.data.ticker == s.data.ticker && r.data.currency == s.data.currency
      && r.(data := s.data) == s
  {
  }

  /** A blank ticker (empty or white space only) changes no state and fetches nothing. */
  lemma BlankTickerIsNoOp(s: Snapshot, apiKey: Option<string>, reply: Reply, lib: Library)
    requires AllWhitespace(s.ticker)
    ensures Search(s, apiKey, reply, lib) == s
  {
  }

  /**
   * A search that gets data replaces `data` wholesale and stores the result; one
   * that gets null data keeps `data`, stores nothing and reports DataNotFound.
   * Loading is over either way.
   */
  lemma SearchResolved(s: Snapshot, apiKey: Option<string>, reply: Reply, lib: Library)
    requires !AllWhitespace(s.ticker)
    requires FetchStockData(s.ticker, apiKey, reply, lib).Resolved?
    ensures var result := FetchStockData(s.ticker, apiKey, reply, lib).result;
      var r := Search(s, apiKey, reply, lib);
      && !r.loading
      && (result.data.Some? ==> r.data == result.data.value && r.searchResult == Some(result) && r.error.None?)
      && (result.data.None? ==> r.data == s.data && r.searchResult.None? && r.error == Some(DataNotFound))
  {
  }

  /** A thrown error keeps `data`, stores no result and reports the classified message. */
  lemma SearchRejected(s: Snapshot, apiKey: Option<string>, reply: Reply, lib: Library)
    requires !AllWhitespace(s.ticker)
    requires FetchStockData(s.ticker, apiKey, reply, lib).Rejected?
    ensures var e := FetchStockData(s.ticker, apiKey, reply, lib).error;
      var r := Search(s, apiKey, reply, lib);
      && !r.loading && r.data == s.data && r.searchResult.None?
      && r.error == Some(ClassifyError(ErrorMessageOf(e)))
  {
  }

  /** Without an API key a search ends in the configuration error and leaves the data alone. */
  lemma SearchWithoutKey(s: Snapshot, apiKey: Option<string>, reply: Reply, lib: Library)
    requires !AllWhitespace(s.ticker)
    requires apiKey.None? || apiKey.value == ""
    ensures var r := Search(s, apiKey, reply, lib);
      !r.loading && r.data == s.data && r.searchResult.None? && r.error == Some(ConfigurationError)
  {
    MissingKeyIsConfigurationError();
  }

  // ---------------------------------------------------------------------------
  // the component
  // ---------------------------------------------------------------------------

  class App {
    var ticker: string
    var loading: bool
    var error: Option<string>
    var searchResult: Option<SearchResult>
    var data: StockData

    function State(): Snapshot
      reads this
    {
      Snapshot(ticker, loading, error, searchResult, data)
    }

    constructor ()
      ensures State() == Initial
    {
      ticker := "";
      loading := false;
      error := None;
      searchResult := None;
      data := DefaultData;
    }

    /** The valuation displayed: recomputed from the current data on every read. */
    function Results(): CalculationResult
      reads this
    {
      CalculateResults(data)
    }

    method SetTicker(text: string)
      modifies this
      ensures State() == WithTicker(old(State()), text)
    {
      ticker := text;
    }

    method HandleReset()
      modifies this
      ensures State() == Reset(old(State()))
    {
      data := DefaultData;
      ticker := "";
      searchResult := None;
      error := None;
    }

    method UpdateField(field: NumericField, value: string, lib: Library)
      modifies this
      ensures State() == Edit(old(State()), field, value, lib)
    {
      var numValue := lib.parseFloat(value);
      if numValue.Some? {
        data := WithField(data, field, numValue.value);
      }
    }

    /** `apiKey` and `reply` stand for the environment and the awaited request. */
    method HandleSearch(apiKey: Option<string>, reply: Reply, lib: Library)
      modifies this
      ensures State() == Search(old(State()), apiKey, reply, lib)
    {
      ghost var before := State();
      if Trim(ticker) == "" {
        return;
      }
      loading := true;
      error := None;
      searchResult := None;
      SettleIgnoresProgress(State(), before);
      var result := FetchStockData(ticker, apiKey, reply, lib);
      Settled(result);
    }

    /** Stores the settled outcome; the `finally` clause, setLoading(false), ends each path. */
    method Settled(result: FetchOutcome)
      modifies this
      ensures State() == Settle(old(State()), result)
    {
      match result {
        case Resolved(found) =>
          if found.data.Some? {
            error := None;
            searchResult := Some(found);
            data := found.data.value;
          } else {
            error := Some(DataNotFound);
            searchResult := None;
          }
          loading := false;
        case Rejected(e) =>
          var errorMessage := ErrorMessageOf(e);
          error := Some(ClassifyError(errorMessage));
          searchResult := None;
          loading := false;
      }
    }
  }
}
