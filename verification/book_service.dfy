/** `BookService.findAll` and `BookService.create`
    (src/api/book/book.service.ts): the arguments they hand to the ORM. */
module BookService {
  import opened Wrappers
  import opened Js
  import opened Query
  import opened BookHelpers

  const DefaultTakeBooks: int := 50

  /** `include` of both queries: the authors in full and a count of quotes. */
  const BookInclude: Include := Include({"authors"}, {"quotes"})

  /** `Partial<FilterBooksOptionsType>`. */
  datatype BookFilterOptions = BookFilterOptions(
    limit: Option<int>,
    publishYear: Option<int>,
    publishingHouse: Option<string>,
    publishingTown: Option<string>,
    edition: Option<string>,
    pyc: Option<Comparison>)

  /** The options object with every field `undefined`. */
  const NoFilters: BookFilterOptions := BookFilterOptions(None, None, None, None, None, None)

  datatype BookWhere = BookWhere(
    publishYear: Option<YearFilter>,
    publishingHouse: Option<StringFilter>,
    publishingTown: Option<StringFilter>,
    edition: Option<StringFilter>)

  datatype FindManyBooks = FindManyBooks(take: int, where: BookWhere, joins: Include)

  /** The columns of a book row the filters read. */
  datatype BookRow = BookRow(
    publishYear: Option<int>, publishingHouse: Option<string>, publishingTown: Option<string>, edition: Option<string>)

  /** `value ? { contains: value } : undefined`. */
  function ContainsIfTruthy(value: Option<string>): (r: Option<StringFilter>)
    ensures r.Some? <==> TruthyString(value)
    ensures r.Some? ==> r.value.contains == value.value
  {
    if TruthyString(value) then Some(Contains(value.value)) else None
  }

  /** `findAll(filterOptions?)`: `take` is the limit when it is truthy and
      50 otherwise; each string filter is present exactly for a non-empty
      input; the year filter is the helper's output. */
  function FindAllArgs(filterOptions: Option<BookFilterOptions>): (r: FindManyBooks)
    ensures var o := filterOptions.GetOr(NoFilters);
      && r.take == (if TruthyNumber(o.limit) then o.limit.value else DefaultTakeBooks)
      && r.take != 0
      && r.where.publishYear == GetFilterOptionsByPublishYear(o.publishYear, o.pyc)
      && (r.where.publishingHouse.Some? <==> TruthyString(o.publishingHouse))
      && (r.where.publishingHouse.Some? ==> r.where.publishingHouse.value.contains == o.publishingHouse.value)
      && (r.where.publishingTown.Some? <==> TruthyString(o.publishingTown))
      && (r.where.publishingTown.Some? ==> r.where.publishingTown.value.contains == o.publishingTown.value)
      && (r.where.edition.Some? <==> TruthyString(o.edition))
      && (r.where.edition.Some? ==> r.where.edition.value.contains == o.edition.value)
      && r.joins == BookInclude
  {
    var o := filterOptions.GetOr(NoFilters);
    FindManyBooks(
      if TruthyNumber(o.limit) then o.limit.value else DefaultTakeBooks,
      BookWhere(
        GetFilterOptionsByPublishYear(o.publishYear, o.pyc),
        ContainsIfTruthy(o.publishingHouse),
        ContainsIfTruthy(o.publishingTown),
        ContainsIfTruthy(o.edition)),
      BookInclude)
  }

  /** A row satisfies a `where` when it satisfies each of its fields. */
  predicate AdmitsBook(where: BookWhere, row: BookRow) {
    && AdmitsYear(where.publishYear, row.publishYear)
    && AdmitsString(where.publishingHouse, row.publishingHouse)
    && AdmitsString(where.publishingTown, row.publishingTown)
    && AdmitsString(where.edition, row.edition)
  }

  /** The rows `findAll` keeps, stated on the options themselves: every
      non-empty string option must occur in its column, and the year must
      pass the helper's comparison. */
  lemma FindAllWhereMeaning(filterOptions: Option<BookFilterOptions>, row: BookRow)
    ensures var o := filterOptions.GetOr(NoFilters);
      AdmitsBook(FindAllArgs(filterOptions).where, row) <==>
        && AdmitsYear(GetFilterOptionsByPublishYear(o.publishYear, o.pyc), row.publishYear)
        && (TruthyString(o.publishingHouse) ==>
              row.publishingHouse.Some? && IsSubstring(o.publishingHouse.value, row.publishingHouse.value))
        && (TruthyString(o.publishingTown) ==>
              row.publishingTown.Some? && IsSubstring(o.publishingTown.value, row.publishingTown.value))
        && (TruthyString(o.edition) ==>
              row.edition.Some? && IsSubstring(o.edition.value, row.edition.value))
  {
  }

  /** Without options the listing takes 50 books and filters nothing. */
  lemma FindAllWithoutOptions(row: BookRow)
    ensures FindAllArgs(None) == FindAllArgs(Some(NoFilters))
    ensures FindAllArgs(None) == FindManyBooks(50, BookWhere(None, None, None, None), BookInclude)
    ensures AdmitsBook(FindAllArgs(None).where, row)
  {
  }

  /** `CreateBookDto`. */
  datatype CreateBookDto = CreateBookDto(
    title: string,
    sum: Option<string>,
    publishYear: Option<int>,
    publishingHouse: Option<string>,
    publishingTown: Option<string>,
    edition: Option<string>,
    authors: seq<string>)

  /** `{ id }`, a reference to an existing row. */
  datatype IdRef = IdRef(id: string)

  /** `data` of `create`: the dto's scalar fields and `authors: { connect }`. */
  datatype CreateBookData = CreateBookData(
    title: string,
    sum: Option<string>,
    publishYear: Option<int>,
    publishingHouse: Option<string>,
    publishingTown: Option<string>,
    edition: Option<string>,
    connectAuthors: seq<IdRef>)

  datatype CreateBookArgs = CreateBookArgs(data: CreateBookData, joins: Include)

  /** `authors.map((id) => ({ id }))`. */
  function ConnectList(ids: seq<string>): (refs: seq<IdRef>)
    ensures |refs| == |ids|
    ensures forall i :: 0 <= i < |ids| ==> refs[i].id == ids[i]
  {
    if |ids| == 0 then [] else [IdRef(ids[0])] + ConnectList(ids[1..])
  }

  /** The ids a connect list refers to, in order. */
  function RefIds(refs: seq<IdRef>): seq<string> {
    if |refs| == 0 then [] else [refs[0].id] + RefIds(refs[1..])
  }

  /** Reading the ids back from the connect list gives the dto's author
      ids, in order, duplicates included. */
  lemma {:induction false} ConnectListRoundTrip(ids: seq<string>)
    ensures RefIds(ConnectList(ids)) == ids
  {
    if |ids| > 0 {
      assert ConnectList(ids)[1..] == ConnectList(ids[1..]);
      ConnectListRoundTrip(ids[1..]);
    }
  }

  /** `create(createBookDto)`: the dto's fields, the authors connected by
      id, and the standard include. */
  function CreateArgs(dto: CreateBookDto): (r: CreateBookArgs)
    ensures r.data.title == dto.title && r.data.sum == dto.sum && r.data.publishYear == dto.publishYear
    ensures r.data.publishingHouse == dto.publishingHouse && r.data.publishingTown == dto.publishingTown
    ensures r.data.edition == dto.edition
    ensures RefIds(r.data.connectAuthors) == dto.authors
    ensures r.joins == BookInclude
  {
    ConnectListRoundTrip(dto.authors);
    CreateBookArgs(
      CreateBookData(dto.title, dto.sum, dto.publishYear, dto.publishingHouse, dto.publishingTown, dto.edition,
                     ConnectList(dto.authors)),
      BookInclude)
  }
}
