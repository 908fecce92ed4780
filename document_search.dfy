/**
 * The query builder of SearchDocuments (repository/document_repository.go):
 * from the filters the search handler collected, the WHERE conditions with
 * their numbered placeholders, the argument list that binds them, whether
 * the tag relation is joined, the ORDER BY column and the LIMIT.
 */
module DocumentSearch {
  import opened Wrappers
  import opened GoText

  /**
   * The filters map as the search handler fills it: an absent key is None.
   * The athlete id and the limit are integers, the tag ids a list of
   * integers, everything else text.
   */
  datatype Filters = Filters(
    athleteId: Option<int>,
    documentType: Option<string>,
    categoryId: Option<string>,
    status: Option<string>,
    search: Option<string>,
    tagIds: Option<seq<int>>,
    sort: Option<string>,
    limit: Option<int>)

  datatype Column = AthleteColumn | TypeColumn | CategoryColumn | StatusColumn | SearchColumn | TagColumn

  /** One WHERE condition and the placeholders $first .. $first + count - 1 it binds. */
  datatype Clause = Clause(column: Column, first: int, count: nat)

  /** A query argument: an integer or a text. */
  datatype Arg = IntArg(n: int) | TextArg(s: string)

  datatype SearchQuery = SearchQuery(
    joinTags: bool,
    clauses: seq<Clause>,
    args: seq<Arg>,
    orderBy: string,
    limit: Option<int>)

  /** Whether the filters ask for condition c: "all" and an empty text or tag list ask for nothing. */
  predicate Wants(c: Column, f: Filters) {
    match c
    case AthleteColumn => f.athleteId.Some?
    case TypeColumn => f.documentType.Some?
    case CategoryColumn => f.categoryId.Some? && f.categoryId.value != "all"
    case StatusColumn => f.status.Some? && f.status.value != "all"
    case SearchColumn => f.search.Some? && f.search.value != ""
    case TagColumn => f.tagIds.Some? && |f.tagIds.value| > 0
  }

  function Piece(c: Column, f: Filters): seq<Column> {
    if Wants(c, f) then [c] else []
  }

  /** The conditions a filter record asks for, in the order the builder examines them. */
  function ActiveColumns(f: Filters): seq<Column> {
    Piece(AthleteColumn, f) + Piece(TypeColumn, f) + Piece(CategoryColumn, f)
    + Piece(StatusColumn, f) + Piece(SearchColumn, f) + Piece(TagColumn, f)
  }

  function IntArgs(ids: seq<int>): (r: seq<Arg>)
    ensures |r| == |ids| && forall i :: 0 <= i < |ids| ==> r[i] == IntArg(ids[i])
  {
    seq(|ids|, i requires 0 <= i < |ids| => IntArg(ids[i]))
  }

  /**
   * The arguments a condition binds: the filter's value; the search text
   * wrapped in '%' for a substring match; one integer per tag id.
   */
  function Bound(c: Column, f: Filters): seq<Arg> {
    match c
    case AthleteColumn => [IntArg(f.athleteId.GetOr(0))]
    case TypeColumn => [TextArg(f.documentType.GetOr(""))]
    case CategoryColumn => [TextArg(f.categoryId.GetOr(""))]
    case StatusColumn => [TextArg(f.status.GetOr(""))]
    case SearchColumn => [TextArg("%" + f.search.GetOr("") + "%")]
    case TagColumn => IntArgs(f.tagIds.GetOr([]))
  }

  function Columns(cs: seq<Clause>): (r: seq<Column>)
    ensures |r| == |cs|
  {
    if cs == [] then [] else Columns(cs[..|cs| - 1]) + [cs[|cs| - 1].column]
  }

  /** The arguments of the conditions cs, condition after condition. */
  function ArgsOf(cs: seq<Clause>, f: Filters): seq<Arg> {
    if cs == [] then [] else ArgsOf(cs[..|cs| - 1], f) + Bound(cs[|cs| - 1].column, f)
  }

  /**
   * The placeholders of cs are numbered consecutively from $1, condition
   * after condition, and next is the number after the last one.
   */
  predicate Numbered(cs: seq<Clause>, next: int) {
    if cs == [] then next == 1
    else Numbered(cs[..|cs| - 1], cs[|cs| - 1].first) && cs[|cs| - 1].first + cs[|cs| - 1].count == next
  }

  /** Each condition holds as many placeholders as it binds arguments. */
  predicate Counted(cs: seq<Clause>, f: Filters) {
    forall i :: 0 <= i < |cs| ==> cs[i].count == |Bound(cs[i].column, f)|
  }

  lemma Extend(cs: seq<Clause>, c: Clause, f: Filters, next: int)
    ensures Columns(cs + [c]) == Columns(cs) + [c.column]
    ensures ArgsOf(cs + [c], f) == ArgsOf(cs, f) + Bound(c.column, f)
    ensures Numbered(cs + [c], next) <==> Numbered(cs, c.first) && c.first + c.count == next
  {
    assert (cs + [c])[..|cs|] == cs;
  }

  lemma CountedPrefix(cs: seq<Clause>, f: Filters)
    requires cs != [] && Counted(cs, f)
    ensures Counted(cs[..|cs| - 1], f)
  {
    var init := cs[..|cs| - 1];
    forall i | 0 <= i < |init| ensures init[i].count == |Bound(init[i].column, f)| {
      assert init[i] == cs[i];
    }
  }

  /** With consecutive numbering there are next - 1 arguments in all. */
  lemma {:induction false} ArgumentCount(cs: seq<Clause>, f: Filters, next: int)
    requires Numbered(cs, next) && Counted(cs, f)
    ensures |ArgsOf(cs, f)| == next - 1
  {
    if cs != [] {
      CountedPrefix(cs, f);
      ArgumentCount(cs[..|cs| - 1], f, cs[|cs| - 1].first);
    }
  }

  lemma SliceOfPrefix<T>(all: seq<T>, x: seq<T>, y: seq<T>, a: int, b: int, w: seq<T>)
    requires all == x + y && 0 <= a <= b <= |x| && x[a..b] == w
    ensures all[a..b] == w
  {
    assert (x + y)[a..b] == x[a..b];
  }

  lemma SliceOfSuffix<T>(all: seq<T>, x: seq<T>, y: seq<T>)
    requires all == x + y
    ensures all[|x|..|x| + |y|] == y
  {
  }

  lemma ArgsOfLast(cs: seq<Clause>, f: Filters)
    requires cs != []
    ensures ArgsOf(cs, f) == ArgsOf(cs[..|cs| - 1], f) + Bound(cs[|cs| - 1].column, f)
  {
  }

  /**
   * With consecutive numbering, the arguments of condition i sit exactly at
   * its placeholders: placeholder $p is bound to the p-th argument.
   */
  lemma {:induction false} PlaceholdersBindArguments(cs: seq<Clause>, f: Filters, next: int, i: int)
    requires Numbered(cs, next) && Counted(cs, f) && 0 <= i < |cs|
    ensures |ArgsOf(cs, f)| == next - 1
    ensures 1 <= cs[i].first && cs[i].first - 1 + cs[i].count <= next - 1
    ensures ArgsOf(cs, f)[cs[i].first - 1 .. cs[i].first - 1 + cs[i].count] == Bound(cs[i].column, f)
    decreases |cs|, 1
  {
    if i < |cs| - 1 {
      BindEarlier(cs, f, next, i);
    } else {
      BindLast(cs, f, next);
    }
  }

  /** The last condition's arguments close the list. */
  lemma BindLast(cs: seq<Clause>, f: Filters, next: int)
    requires Numbered(cs, next) && Counted(cs, f) && cs != []
    ensures |ArgsOf(cs, f)| == next - 1
    ensures 1 <= cs[|cs| - 1].first && cs[|cs| - 1].first - 1 + cs[|cs| - 1].count == next - 1
    ensures ArgsOf(cs, f)[cs[|cs| - 1].first - 1 .. next - 1] == Bound(cs[|cs| - 1].column, f)
  {
    var init, last := cs[..|cs| - 1], cs[|cs| - 1];
    CountedPrefix(cs, f);
    ArgumentCount(cs, f, next);
    ArgumentCount(init, f, last.first);
    ArgsOfLast(cs, f);
    assert last.count == |Bound(last.column, f)|;
    SliceOfSuffix(ArgsOf(cs, f), ArgsOf(init, f), Bound(last.column, f));
  }

  /** An earlier condition's arguments sit where they sat before the last condition was added. */
  lemma {:induction false} BindEarlier(cs: seq<Clause>, f: Filters, next: int, i: int)
    requires Numbered(cs, next) && Counted(cs, f) && 0 <= i < |cs| - 1
    ensures |ArgsOf(cs, f)| == next - 1
    ensures 1 <= cs[i].first && cs[i].first - 1 + cs[i].count <= cs[|cs| - 1].first - 1
    ensures ArgsOf(cs, f)[cs[i].first - 1 .. cs[i].first - 1 + cs[i].count] == Bound(cs[i].column, f)
    decreases |cs|, 0
  {
    var init, last := cs[..|cs| - 1], cs[|cs| - 1];
    CountedPrefix(cs, f);
    ArgumentCount(cs, f, next);
    ArgsOfLast(cs, f);
    assert cs[i] == init[i];
    PlaceholdersBindArguments(init, f, last.first, i);
    SliceOfPrefix(ArgsOf(cs, f), ArgsOf(init, f), Bound(last.column, f),
                  cs[i].first - 1, cs[i].first - 1 + cs[i].count, Bound(cs[i].column, f));
  }

  /** No placeholder belongs to two conditions: the ranges follow one another. */
  lemma {:induction false} PlaceholdersDisjoint(cs: seq<Clause>, next: int)
    requires Numbered(cs, next)
    ensures forall i, j :: 0 <= i < j < |cs| ==> cs[i].first + cs[i].count <= cs[j].first
    ensures forall i :: 0 <= i < |cs| ==> cs[i].first + cs[i].count <= next
  {
    if cs != [] {
      var init, last := cs[..|cs| - 1], cs[|cs| - 1];
      PlaceholdersDisjoint(init, last.first);
      forall i, j | 0 <= i < j < |cs| ensures cs[i].first + cs[i].count <= cs[j].first {
        assert cs[i] == init[i];
        if j < |init| { assert cs[j] == init[j]; }
      }
      forall i | 0 <= i < |cs| ensures cs[i].first + cs[i].count <= next {
        if i < |init| { assert cs[i] == init[i]; }
      }
    }
  }

  // ---------------------------------------------------------------- ORDER BY

  const DefaultOrder: string := "d.uploaded_at DESC"

  /** The sort keys the builder recognises. */
  const SortKeys: set<string> := {"name_asc", "name_desc", "date_asc", "date_desc", "expiry_asc", "expiry_desc"}

  /** The ORDER BY text for the sort filter; an absent or unknown key keeps the default. */
  function OrderBy(sort: Option<string>): (r: string)
    ensures sort.None? || sort.value !in SortKeys ==> r == DefaultOrder
    ensures sort == Some("date_desc") ==> r == DefaultOrder
    ensures r in {"d.file_name ASC", "d.file_name DESC", "d.uploaded_at ASC", "d.uploaded_at DESC",
                  "d.expiry_date ASC NULLS LAST", "d.expiry_date DESC NULLS LAST"}
  {
    if sort.None? then DefaultOrder
    else match sort.value
      case "name_asc" => "d.file_name ASC"
      case "name_desc" => "d.file_name DESC"
      case "date_asc" => "d.uploaded_at ASC"
      case "date_desc" => "d.uploaded_at DESC"
      case "expiry_asc" => "d.expiry_date ASC NULLS LAST"
      case "expiry_desc" => "d.expiry_date DESC NULLS LAST"
      case _ => DefaultOrder
  }

  /** Distinct recognised keys give distinct orders, except that date_desc is the default itself. */
  lemma OrderByDistinct(a: string, b: string)
    requires a in SortKeys && b in SortKeys && a != b
    ensures OrderBy(Some(a)) != OrderBy(Some(b))
  {
  }

  // ---------------------------------------------------------------- the builder

  /** What the builder has produced so far is consistently numbered and bound. */
  predicate Built(clauses: seq<Clause>, args: seq<Arg>, argIndex: int, f: Filters) {
    Numbered(clauses, argIndex) && Counted(clauses, f) && args == ArgsOf(clauses, f) && argIndex == |args| + 1
  }

  lemma Step(clauses: seq<Clause>, args: seq<Arg>, argIndex: int, f: Filters, c: Column)
    requires Built(clauses, args, argIndex, f)
    ensures var next := argIndex + |Bound(c, f)|;
      Built(clauses + [Clause(c, argIndex, |Bound(c, f)|)], args + Bound(c, f), next, f)
    ensures Columns(clauses + [Clause(c, argIndex, |Bound(c, f)|)]) == Columns(clauses) + [c]
  {
    var added := Clause(c, argIndex, |Bound(c, f)|);
    Extend(clauses, added, f, argIndex + |Bound(c, f)|);
    var cs := clauses + [added];
    forall i | 0 <= i < |cs| ensures cs[i].count == |Bound(cs[i].column, f)| {
      if i < |clauses| { assert cs[i] == clauses[i]; }
    }
  }

  /**
   * One filter step of the builder: when the filters ask for condition c,
   * append it with the next placeholder numbers, append its arguments and
   * advance the placeholder counter; otherwise change nothing.
   */
  method Condition(clauses: seq<Clause>, args: seq<Arg>, argIndex: int, f: Filters, c: Column, values: seq<Arg>)
    returns (clauses': seq<Clause>, args': seq<Arg>, argIndex': int)
    requires Built(clauses, args, argIndex, f)
    requires Wants(c, f) ==> values == Bound(c, f)
    ensures Built(clauses', args', argIndex', f)
    ensures Columns(clauses') == Columns(clauses) + Piece(c, f)
  {
    if Wants(c, f) {
      Step(clauses, args, argIndex, f, c);
      clauses' := clauses + [Clause(c, argIndex, |values|)];
      args' := args + values;
      argIndex' := argIndex + |values|;
    } else {
      clauses', args', argIndex' := clauses, args, argIndex;
    }
  }

  /** The placeholder loop of the tag filter: one argument per tag id, in order. */
  method TagArgs(ids: seq<int>) returns (args: seq<Arg>)
    ensures args == IntArgs(ids)
  {
    args := [];
    for i := 0 to |ids|
      invariant args == IntArgs(ids[..i])
    {
      assert IntArgs(ids[..i + 1]) == IntArgs(ids[..i]) + [IntArg(ids[i])];
      args := args + [IntArg(ids[i])];
    }
    assert ids[..|ids|] == ids;
  }

  /**
   * SearchDocuments up to the query: each filter in turn, when present and
   * not a sentinel, appends its condition with the next placeholder numbers
   * and its arguments; tag ids add one argument each, one IN condition and
   * the join with the tag relation.
   */
  method BuildSearchQuery(f: Filters) returns (q: SearchQuery)
    ensures Columns(q.clauses) == ActiveColumns(f)
    ensures Built(q.clauses, q.args, |q.args| + 1, f)
    ensures q.joinTags <==> f.tagIds.Some? && |f.tagIds.value| > 0
    ensures q.orderBy == OrderBy(f.sort) && q.limit == f.limit
  {
    var clauses: seq<Clause> := [];
    var args: seq<Arg> := [];
    var argIndex := 1;
    clauses, args, argIndex := Condition(clauses, args, argIndex, f, AthleteColumn, [IntArg(f.athleteId.GetOr(0))]);
    ghost var upTo := Piece(AthleteColumn, f);
    assert Columns(clauses) == upTo;
    clauses, args, argIndex := Condition(clauses, args, argIndex, f, TypeColumn, [TextArg(f.documentType.GetOr(""))]);
    upTo := upTo + Piece(TypeColumn, f);
    clauses, args, argIndex := Condition(clauses, args, argIndex, f, CategoryColumn, [TextArg(f.categoryId.GetOr(""))]);
    upTo := upTo + Piece(CategoryColumn, f);
    clauses, args, argIndex := Condition(clauses, args, argIndex, f, StatusColumn, [TextArg(f.status.GetOr(""))]);
    upTo := upTo + Piece(StatusColumn, f);
    clauses, args, argIndex := Condition(clauses, args, argIndex, f, SearchColumn,
                                         [TextArg("%" + f.search.GetOr("") + "%")]);
    upTo := upTo + Piece(SearchColumn, f);
    var tagArgs := TagArgs(f.tagIds.GetOr([]));
    clauses, args, argIndex := Condition(clauses, args, argIndex, f, TagColumn, tagArgs);
    upTo := upTo + Piece(TagColumn, f);
    assert Columns(clauses) == upTo;
    var joinTags := Wants(TagColumn, f);
    q := SearchQuery(joinTags, clauses, args, OrderBy(f.sort), f.limit);
  }
}
