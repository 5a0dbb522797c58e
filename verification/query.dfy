/** The fragments of ORM query arguments the list builders produce, and
    the meaning of a `contains` string filter. */
module Query {
  import opened Wrappers

  /** `{ contains: value }` on a string column. */
  datatype StringFilter = Contains(contains: string)

  /** An `include` argument: relations loaded in full (`authors: true`) and
      relations whose rows are only counted (`_count: { select: … }`). */
  datatype Include = Include(relations: set<string>, counts: set<string>)

  /** `needle` occurs somewhere in `hay`. */
  predicate IsSubstring(needle: string, hay: string) {
    exists i :: 0 <= i <= |hay| && needle <= hay[i..]
  }

  /** A nullable string column satisfies an optional `contains` filter: no
      filter admits every row, a filter admits only non-null values that
      contain the searched text. */
  predicate AdmitsString(filter: Option<StringFilter>, column: Option<string>) {
    filter.None? || (column.Some? && IsSubstring(filter.value.contains, column.value))
  }
}
