/** The inline text of a query exists exactly if the query is sound. */
module QuerySoundness {
  import opened Wrappers
  import opened Values
  import opened Tokens
  import opened Queries
  import opened SqlReader
  import opened QueryMeaning

  lemma {:induction false} ColumnsExist(cs: seq<ColumnRef>, aliases: Aliases, first: bool)
    ensures ColumnList(cs, aliases, first).Some? <==> KnownColumns(cs, aliases)
  {
    if cs != [] {
      ColumnsExist(cs[1..], aliases, false);
      assert KnownColumns(cs, aliases) <==> cs[0].owner in aliases && KnownColumns(cs[1..], aliases) by {
        assert forall i | 0 <= i < |cs[1..]| :: cs[1..][i] == cs[i + 1];
      }
    }
  }

  lemma {:induction false} OrderExists(os: seq<OrderBy>, aliases: Aliases, first: bool)
    ensures OrderList(os, aliases, first).Some? <==> KnownOrder(os, aliases)
  {
    if os != [] {
      OrderExists(os[1..], aliases, false);
      assert KnownOrder(os, aliases) <==> os[0].column.owner in aliases && KnownOrder(os[1..], aliases) by {
        assert forall i | 0 <= i < |os[1..]| :: os[1..][i] == os[i + 1];
      }
    }
  }

  lemma {:induction false} JoinsExist(joins: seq<Join>, aliases: Aliases, rootAlias: string, correlated: bool,
                                      entity: nat,
                                      pivot: nat)
    ensures Joined(joins, aliases, rootAlias, correlated, entity, pivot).Some?
       <==> KnownJoins(joins, aliases, rootAlias, correlated, entity)
    ensures Joined(joins, aliases, rootAlias, correlated, entity, pivot).Some? ==>
              Joined(joins, aliases, rootAlias, correlated, entity, pivot).value.0
              == MeantJoins(joins, aliases, rootAlias, correlated, entity, pivot).0
  {
    hide TargetAlias, PivotAlias, JoinSql, MeantJoin;
    if joins != [] {
      var j := joins[0];
      var known := if j.target in aliases then aliases
                   else aliases[j.target := TargetAlias(rootAlias, correlated, entity)];
      JoinsExist(joins[1..], known, rootAlias, correlated, entity + 1, if j.pivot.Some? then pivot + 1 else pivot);
    }
  }

  lemma {:induction false} CteJoinsExist(joins: seq<CteJoin>, aliases: Aliases)
    ensures CteJoinList(joins, aliases).Some? <==> KnownCteJoins(joins, aliases)
  {
    if joins != [] {
      CteJoinsExist(joins[1..], aliases);
      assert KnownCteJoins(joins, aliases) <==>
             joins[0].ownerColumn.owner in aliases && KnownCteJoins(joins[1..], aliases) by {
        assert forall i | 0 <= i < |joins[1..]| :: joins[1..][i] == joins[i + 1];
      }
    }
  }

  lemma {:induction false} ScalarExists(s: Scalar, aliases: Aliases)
    ensures InlineScalar(s, aliases).Some? <==> SoundScalar(s, aliases)
    decreases s, 0
  {
    match s
    case Column(_) =>
    case Constant(_) =>
    case Arithmetic(left, _, right) =>
      ScalarExists(left, aliases);
      ScalarExists(right, aliases);
    case Aggregate(_, _, _) =>
    case Function(_, args) => ScalarsExist(args, aliases, true);
    case Case(branches, otherwise) =>
      BranchesExist(branches, aliases);
      if otherwise.Else? { ScalarExists(otherwise.value, aliases); }
    case Window(_, args, partitionBy, windowOrder) =>
      ScalarsExist(args, aliases, true);
      ColumnsExist(partitionBy, aliases, true);
      OrderExists(windowOrder, aliases, true);
  }

  lemma {:induction false} ScalarsExist(args: seq<Scalar>, aliases: Aliases, first: bool)
    ensures InlineArgs(args, aliases, first).Some? <==> SoundScalars(args, aliases)
    decreases args, 1
  {
    if args != [] {
      ScalarExists(args[0], aliases);
      ScalarsExist(args[1..], aliases, false);
    }
  }

  lemma {:induction false} BranchExists(b: Branch, aliases: Aliases)
    ensures InlineBranch(b, aliases).Some? <==> SoundBranch(b, aliases)
    decreases b, 1
  {
    ExprExists(b.condition, aliases);
    ScalarExists(b.result, aliases);
  }

  lemma {:induction false} BranchesExist(bs: seq<Branch>, aliases: Aliases)
    ensures InlineBranches(bs, aliases).Some? <==> SoundBranches(bs, aliases)
    decreases bs, 2
  {
    if bs != [] {
      BranchExists(bs[0], aliases);
      BranchesExist(bs[1..], aliases);
    }
  }

  lemma {:induction false} ExprExists(e: Expr, aliases: Aliases)
    ensures InlineExpr(e, aliases).Some? <==> SoundExpr(e, aliases)
    decreases e, 0
  {
    match e
    case Comparison(left, _, right) =>
      ScalarExists(left, aliases);
      ScalarExists(right, aliases);
    case NullCheck(operand, _) => ScalarExists(operand, aliases);
    case Like(operand, pattern, _) =>
      ScalarExists(operand, aliases);
      ScalarExists(pattern, aliases);
    case Between(operand, lower, upper, _) =>
      ScalarExists(operand, aliases);
      ScalarExists(lower, aliases);
      ScalarExists(upper, aliases);
    case InValues(operand, _, _) => ScalarExists(operand, aliases);
    case InSubquery(operand, query, _) =>
      ScalarExists(operand, aliases);
      SelectExists(query, "", None);
    case Exists(query, _) => SelectExists(query, "", None);
    case Logical(_, first, second) =>
      ExprExists(first, aliases);
      ExprExists(second, aliases);
    case Not(inner) => ExprExists(inner, aliases);
  }

  lemma {:induction false} ProjectionExists(p: Projection, aliases: Aliases)
    ensures InlineProjection(p, aliases).Some? <==> SoundProjection(p, aliases)
    decreases p, 1
  {
    ScalarExists(p.expression, aliases);
  }

  lemma {:induction false} ProjectionsExist(ps: seq<Projection>, aliases: Aliases, first: bool)
    ensures InlineProjections(ps, aliases, first).Some? <==> SoundProjections(ps, aliases)
    decreases ps, 2
  {
    if ps != [] {
      ProjectionExists(ps[0], aliases);
      ProjectionsExist(ps[1..], aliases, false);
    }
  }

  lemma {:induction false} FilterExists(f: Filter, rootAlias: string)
    ensures InlineFilter(f, rootAlias).Some? <==> SoundFilter(f, rootAlias)
    decreases f, 1
  {
    SelectExists(f.child, rootAlias + "_rel", Some(Extra(f.relation, rootAlias)));
  }

  lemma {:induction false} FiltersExist(fs: seq<Filter>, rootAlias: string, first: bool)
    ensures InlineFilters(fs, rootAlias, first).Some? <==> SoundFilterList(fs, rootAlias)
    decreases fs, 2
  {
    if fs != [] {
      FilterExists(fs[0], rootAlias);
      FiltersExist(fs[1..], rootAlias, false);
    }
  }

  lemma {:induction false} ExtraExists(filters: Filters, extra: Option<Extra>, rootAlias: string)
    ensures InlineExtra(filters, extra, rootAlias).Some? <==> SoundFilters(filters, rootAlias)
    decreases filters, 3
  {
    match filters
    case Plain =>
    case Filtered(fs) => FiltersExist(fs, rootAlias, true);
  }

  lemma {:induction false} CteExists(c: Cte)
    ensures InlineCte(c).Some? <==> SoundCte(c)
    decreases c, 1
  {
    SelectExists(c.query, "", None);
  }

  lemma {:induction false} CtesExist(cs: seq<Cte>, first: bool)
    ensures InlineCtes(cs, first).Some? <==> SoundCtes(cs)
    decreases cs, 2
  {
    if cs != [] {
      CteExists(cs[0]);
      CtesExist(cs[1..], false);
    }
  }

  lemma {:induction false} OperationExists(o: SetOperation)
    ensures InlineSetOperation(o).Some? <==> SoundOperation(o)
    decreases o, 1
  {
    SelectExists(o.query, "", None);
  }

  lemma {:induction false} OperationsExist(os: seq<SetOperation>)
    ensures InlineSetOperations(os).Some? <==> SoundOperations(os)
    decreases os, 2
  {
    if os != [] {
      OperationExists(os[0]);
      OperationsExist(os[1..]);
    }
  }

  lemma {:induction false} SourceExists(q: Select, rootAlias: string)
    ensures InlineSource(q, rootAlias).Some? <==> SoundOrigin(q.source)
    decreases q, 1
  {
    if q.source.Derived? { SelectExists(q.source.query, "", None); }
  }

  lemma {:induction false} ConditionExists(q: Select, extra: Option<Extra>, rootAlias: string, aliases: Aliases)
    ensures InlineCondition(q, extra, rootAlias, aliases).Some?
       <==> SoundCondition(q.condition, aliases) && SoundFilters(q.filters, rootAlias)
    decreases q, 1
  {
    ExtraExists(q.filters, extra, rootAlias);
    if q.condition.Where? { ExprExists(q.condition.e, aliases); }
  }

  lemma {:induction false} RestExists(q: Select, aliases: Aliases)
    ensures HavingSql(q, aliases).Some? <==> SoundCondition(q.having, aliases)
    ensures GroupSql(q, aliases).Some? <==> KnownColumns(q.groupBy, aliases)
    ensures Tail(q, aliases).Some? <==> KnownOrder(q.orderBy, aliases)
    ensures CtesSql(q).Some? <==> SoundCtes(q.ctes)
    decreases q, 1
  {
    ColumnsExist(q.groupBy, aliases, true);
    if q.having.Where? { ExprExists(q.having.e, aliases); }
    OrderExists(q.orderBy, aliases, true);
    CtesExist(q.ctes, true);
  }

  /** The parts of the inline text of a query, in order. */
  ghost predicate Parts(q: Select, override: string, extra: Option<Extra>, joins: Sql) {
    var rootAlias, aliases := QueryAlias(q, override, extra), QueryAliases(q, override, extra);
    InlineSelect(q, override, extra)
    == Then(Then(Then(Then(Then(Then(Then(
         CtesSql(q),
         SelectList(q, rootAlias, aliases)),
         InlineSource(q, rootAlias)),
         Around(joins, CteJoinList(q.cteJoins, aliases), [])),
         InlineCondition(q, extra, rootAlias, aliases)),
         Pair([], GroupSql(q, aliases), [], HavingSql(q, aliases), [])),
         InlineSetOperations(q.setOperations)),
         Tail(q, aliases))
  }

  /** The text of the joins of a query. */
  function JoinText(q: Select, override: string, extra: Option<Extra>): Option<(Aliases, Sql)> {
    var rootAlias := QueryAlias(q, override, extra);
    Joined(q.joins, map[q.root := rootAlias], rootAlias, override != "", 1, 0)
  }

  lemma PartsOf(q: Select, override: string, extra: Option<Extra>)
    ensures JoinText(q, override, extra).None? ==> InlineSelect(q, override, extra).None?
    ensures JoinText(q, override, extra).Some? ==> Parts(q, override, extra, JoinText(q, override, extra).value.1)
    ensures JoinText(q, override, extra).Some? ==>
              JoinText(q, override, extra).value.0 == QueryAliases(q, override, extra)
    ensures JoinText(q, override, extra).Some? <==>
              var rootAlias := QueryAlias(q, override, extra);
              KnownJoins(q.joins, map[q.root := rootAlias], rootAlias, override != "", 1)
  {
    hide Joined, MeantJoins, KnownJoins, CtesSql, SelectList, InlineSource, CteJoinList, InlineCondition, GroupSql,
         HavingSql, InlineSetOperations, Tail, Then, Around, Pair, RootAlias;
    var rootAlias := QueryAlias(q, override, extra);
    JoinsExist(q.joins, map[q.root := rootAlias], rootAlias, override != "", 1, 0);
  }

  lemma {:induction false} SelectExists(q: Select, override: string, extra: Option<Extra>)
    ensures InlineSelect(q, override, extra).Some? <==> Sound(q, override, extra)
    decreases q, 2
  {
    hide InlineSelect, InlineSource, CteJoinList, InlineCondition, GroupSql, HavingSql, InlineSetOperations, Tail,
         CtesSql, KnownJoins, SoundCtes, SoundProjections, SoundOrigin, KnownCteJoins, SoundCondition, SoundFilters,
         KnownColumns, SoundOperations, KnownOrder, QueryAlias, QueryAliases, JoinText;
    var rootAlias, aliases := QueryAlias(q, override, extra), QueryAliases(q, override, extra);
    PartsOf(q, override, extra);
    RestExists(q, aliases);
    ProjectionsExist(q.projections, aliases, true);
    SourceExists(q, rootAlias);
    CteJoinsExist(q.cteJoins, aliases);
    ConditionExists(q, extra, rootAlias, aliases);
    OperationsExist(q.setOperations);
  }
}
