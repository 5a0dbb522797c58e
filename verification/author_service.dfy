/** `AuthorService.getManyAuthors` (src/api/author/author.service.ts): the
    arguments of the author listing. */
module AuthorService {
  import opened Wrappers
  import opened Js
  import opened Query

  /** `joinSchema`: a count of each author's books and nothing else. */
  const AuthorJoinSchema: Include := Include({}, {"books"})

  datatype AuthorWhere = AuthorWhere(name: StringFilter)

  /** The `findMany` argument; absent keys are `None`. */
  datatype FindManyAuthors = FindManyAuthors(where: Option<AuthorWhere>, take: Option<int>, joins: Include)

  /** `getManyAuthors(nameHint?, limit?)`: starts from an empty options
      object, adds the name filter for a non-empty hint and the limit when
      it is truthy, then adds the join schema. */
  function GetManyAuthorsArgs(nameHint: Option<string>, limit: Option<int>): (r: FindManyAuthors)
    ensures r.where.Some? <==> TruthyString(nameHint)
    ensures r.where.Some? ==> r.where.value.name.contains == nameHint.value
    ensures r.take.Some? <==> TruthyNumber(limit)
    ensures r.take.Some? ==> r.take == limit && r.take.value != 0
    ensures r.joins.relations == {} && r.joins.counts == {"books"}
  {
    var options := FindManyAuthors(None, None, AuthorJoinSchema);
    var options := if TruthyString(nameHint) then options.(where := Some(AuthorWhere(Contains(nameHint.value)))) else options;
    var options := if TruthyNumber(limit) then options.(take := limit) else options;
    options
  }

  /** With no arguments, or with an empty hint and a zero limit, the
      options hold only the join schema. */
  lemma GetManyAuthorsWithoutArguments()
    ensures GetManyAuthorsArgs(None, None) == FindManyAuthors(None, None, AuthorJoinSchema)
    ensures GetManyAuthorsArgs(Some(""), Some(0)) == GetManyAuthorsArgs(None, None)
  {
  }

  /** The authors the listing keeps: all of them without a hint, otherwise
      those whose name contains the hint. */
  lemma GetManyAuthorsMeaning(nameHint: Option<string>, limit: Option<int>, name: string)
    ensures var where := GetManyAuthorsArgs(nameHint, limit).where;
      AdmitsString(if where.Some? then Some(where.value.name) else None, Some(name)) <==>
        (!TruthyString(nameHint) || IsSubstring(nameHint.value, name))
  {
  }
}
