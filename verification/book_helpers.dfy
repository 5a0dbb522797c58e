/** `getFilterOptionsByPublishYear` (src/api/book/lib/helpers.ts): the
    `publishYear` filter of the book listing. */
module BookHelpers {
  import opened Wrappers
  import opened Js

  /** `FilterComparisonOptions`: `"gt" | "lt" | "eq"`. */
  datatype Comparison = Gt | Lt | Eq

  /** The filter object on the `publishYear` column: `{gte}`, `{lte}`,
      `{equals}`, or the empty object `{}`. */
  datatype YearFilter =
    | Gte(gte: int)
    | Lte(lte: int)
    | Equals(equals: int)
    | EmptyFilter

  /** `getFilterOptionsByPublishYear(comparisonValue, filterOption)`:
      `undefined` for a falsy value, otherwise a bound chosen by the option
      (both bounds inclusive), or `{}` when no option is given. */
  function GetFilterOptionsByPublishYear(comparisonValue: Option<int>, filterOption: Option<Comparison>)
    : (r: Option<YearFilter>)
    ensures r.None? <==> !TruthyNumber(comparisonValue)
    ensures r.Some? ==> (r.value == EmptyFilter <==> filterOption.None?)
    ensures r.Some? && filterOption == Some(Gt) ==> r.value.Gte? && r.value.gte == comparisonValue.value
    ensures r.Some? && filterOption == Some(Lt) ==> r.value.Lte? && r.value.lte == comparisonValue.value
    ensures r.Some? && filterOption == Some(Eq) ==> r.value.Equals? && r.value.equals == comparisonValue.value
  {
    if !TruthyNumber(comparisonValue) then None
    else
      match filterOption
      case Some(Gt) => Some(Gte(comparisonValue.value))
      case Some(Lt) => Some(Lte(comparisonValue.value))
      case Some(Eq) => Some(Equals(comparisonValue.value))
      case None => Some(EmptyFilter)
  }

  /** What a `publishYear` filter lets through, for a nullable column: no
      filter and `{}` admit every row; a bound admits the non-null years on
      its side, the bound itself included. */
  predicate AdmitsYear(filter: Option<YearFilter>, year: Option<int>) {
    match filter
    case None => true
    case Some(EmptyFilter) => true
    case Some(Gte(v)) => year.Some? && year.value >= v
    case Some(Lte(v)) => year.Some? && year.value <= v
    case Some(Equals(v)) => year.Some? && year.value == v
  }

  /** The rows the helper's filter keeps, stated directly on its inputs:
      a falsy value or a missing option keeps everything, `"gt"` keeps years
      at or after the value, `"lt"` at or before, `"eq"` exactly it. */
  lemma PublishYearFilterMeaning(comparisonValue: Option<int>, filterOption: Option<Comparison>, year: Option<int>)
    ensures AdmitsYear(GetFilterOptionsByPublishYear(comparisonValue, filterOption), year) <==>
      if !TruthyNumber(comparisonValue) || filterOption.None? then true
      else
        var v := comparisonValue.value;
        year.Some? &&
        match filterOption.value
        case Gt => year.value >= v
        case Lt => year.value <= v
        case Eq => year.value == v
  {
  }

  /** A produced bound determines the inputs: different values or
      different options never yield the same bound. */
  lemma PublishYearFilterDeterminesInputs(v1: Option<int>, o1: Option<Comparison>, v2: Option<int>, o2: Option<Comparison>)
    requires TruthyNumber(v1) && o1.Some?
    requires GetFilterOptionsByPublishYear(v1, o1) == GetFilterOptionsByPublishYear(v2, o2)
    ensures v1 == v2 && o1 == o2
  {
  }
}
