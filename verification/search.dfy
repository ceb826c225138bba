/** Search strategy selection (`createSearch`).

    The text-search API cannot evaluate GROQ filters with subqueries, so a custom filter is
    parsed and checked; an incompatible filter, or the legacy flag, selects the weighted
    search instead. The GROQ parser and the compatibility check are parameters: `parse`
    returns an error for a filter it cannot parse, which `createSearch` lets through. */
module Search {
  import opened Base

  datatype Strategy = WeightedSearch | TextSearch

  /** The search options the selection reads; `rest` stands for all the others, which
      are handed on untouched. */
  datatype Options<R> = Options(filter: Option<string>, enableLegacySearch: Option<bool>, rest: R)

  /** The chosen factory applied to the arguments, and the console warning, if any. */
  datatype Created<T, C, R> = Created(
    strategy: Strategy,
    searchableTypes: seq<T>,
    client: C,
    options: Options<R>,
    warning: Option<string>)

  /** `!options.filter`: no filter, or the empty one. */
  predicate NoFilter<R>(options: Options<R>) {
    options.filter.None? || options.filter.value == ""
  }

  function LegacyWarning(filter: string): string {
    "Using legacy search because custom filter contains subquery: `" + filter + "`."
  }

  /** `isTextSearchApiCompatible`; an unparsable filter is the parser's error. */
  function IsTextSearchCompatible<E, R>(
    options: Options<R>, parse: string -> Result<E, string>, compatible: E -> bool)
    : (r: Result<bool, string>)
    ensures NoFilter(options) ==> r == Ok(true)
    ensures r.Err? <==> !NoFilter(options) && parse(options.filter.value).Err?
    ensures r.Err? ==> r.error == parse(options.filter.value).error
    ensures r.Ok? && !NoFilter(options) ==> r.value == compatible(parse(options.filter.value).value)
  {
    if NoFilter(options) then Ok(true)
    else
      var expr :- parse(options.filter.value);
      Ok(compatible(expr))
  }

  /** `createSearch`. */
  function CreateSearch<T, C, R, E>(
    searchableTypes: seq<T>, client: C, options: Options<R>,
    parse: string -> Result<E, string>, compatible: E -> bool)
    : (r: Result<Created<T, C, R>, string>)
    ensures r.Err? <==> IsTextSearchCompatible(options, parse, compatible).Err?
    ensures r.Ok? ==>
      var textReady := IsTextSearchCompatible(options, parse, compatible).value;
      var legacy := IsSet(options.enableLegacySearch);
      && (r.value.strategy == TextSearch <==> !legacy && textReady)
      && (r.value.warning.Some? <==> !legacy && !textReady)
    ensures r.Ok? ==>
      && r.value.searchableTypes == searchableTypes
      && r.value.client == client
      && r.value.options == options
  {
    var textReady :- IsTextSearchCompatible(options, parse, compatible);
    var legacy := IsSet(options.enableLegacySearch);
    var warning := if !legacy && !textReady then Some(LegacyWarning(options.filter.value)) else None;
    var strategy := if legacy || !textReady then WeightedSearch else TextSearch;
    Ok(Created(strategy, searchableTypes, client, options, warning))
  }

  /** The selection by case: the legacy flag always means weighted search; without it,
      no filter means text search, and a filter means text search exactly when it parses
      to a compatible expression. A warning is only ever given alongside weighted search. */
  lemma StrategyByCase<T, C, R, E>(
    searchableTypes: seq<T>, client: C, options: Options<R>,
    parse: string -> Result<E, string>, compatible: E -> bool)
    ensures
      var r := CreateSearch(searchableTypes, client, options, parse, compatible);
      && (NoFilter(options) ==> r.Ok? && (r.value.strategy == TextSearch <==> !IsSet(options.enableLegacySearch)))
      && (NoFilter(options) ==> r.Ok? && r.value.warning.None?)
      && (r.Ok? && IsSet(options.enableLegacySearch) ==> r.value.strategy == WeightedSearch)
      && (!NoFilter(options) && parse(options.filter.value).Ok? ==>
            r.Ok? && (r.value.strategy == TextSearch <==>
                      !IsSet(options.enableLegacySearch) && compatible(parse(options.filter.value).value)))
      && (r.Ok? && r.value.warning.Some? ==>
            && r.value.strategy == WeightedSearch
            && r.value.warning.value == LegacyWarning(options.filter.value))
  {
  }

  /** Without a filter the parser is never consulted: any two parsers give the same result. */
  lemma NoFilterIgnoresParser<T, C, R, E>(
    searchableTypes: seq<T>, client: C, options: Options<R>,
    parse1: string -> Result<E, string>, parse2: string -> Result<E, string>, compatible: E -> bool)
    requires NoFilter(options)
    ensures CreateSearch(searchableTypes, client, options, parse1, compatible)
         == CreateSearch(searchableTypes, client, options, parse2, compatible)
  {
  }
}
