/** The values in the inline text of a query are those of the query, in its own order. */
module QueryValues {
  import opened Wrappers
  import opened Values
  import opened Tokens
  import opened SqlWords
  import opened Queries
  import opened QueryMeaning
  import opened QuerySoundness

  lemma AroundValues(a: Sql, x: Sql, b: Sql)
    requires IsPlain(a) && IsPlain(b)
    ensures Bindings(a + x + b) == Bindings(x)
  {
    BindingsAppend(a + x, b);
    BindingsAppend(a, x);
    PlainStays(a, 0);
    PlainStays(b, 0);
  }

  lemma PairValues(a: Sql, x: Sql, b: Sql, y: Sql, c: Sql)
    requires IsPlain(a) && IsPlain(b) && IsPlain(c)
    ensures Bindings(a + x + b + y + c) == Bindings(x) + Bindings(y)
  {
    hide Bindings, IsPlain;
    AroundValues(a, x, b);
    BindingsAppend(a + x + b, y);
    BindingsAppend(a + x + b + y, c);
    PlainIs(c);
  }

  lemma PlainIs(t: Sql)
    requires IsPlain(t)
    ensures Bindings(t) == []
  {
    PlainStays(t, 0);
  }

  lemma OneValue(v: Value)
    ensures Bindings([Literal(v)]) == [v]
  {
    var t: Sql := [Literal(v)];
    assert t[1..] == [] && Bindings(t[1..]) == [];
    assert [v] + [] == [v];
  }

  lemma {:induction false} ListValues(vs: seq<Value>, first: bool)
    ensures Bindings(LiteralList(vs, first)) == vs
  {
    if vs != [] {
      ListValues(vs[1..], false);
      OneValue(vs[0]);
      BindingsAppend(Separator(first, Key.Comma) + [Literal(vs[0])], LiteralList(vs[1..], false));
      AroundValues(Separator(first, Key.Comma), [Literal(vs[0])], []);
      assert Separator(first, Key.Comma) + [Literal(vs[0])] + [] == Separator(first, Key.Comma) + [Literal(vs[0])];
    }
  }

  lemma {:induction false} ScalarBinds(s: Scalar, aliases: Aliases)
    requires InlineScalar(s, aliases).Some?
    ensures Bindings(InlineScalar(s, aliases).value) == ScalarValues(s)
    decreases s, 0
  {
    hide Bindings, AggregateSql, ColumnSql, WindowTail;
    match s
    case Column(c) => PlainIs(ColumnSql(c, aliases).value);
    case Constant(v) => OneValue(v);
    case Arithmetic(left, op, right) =>
      ScalarBinds(left, aliases);
      ScalarBinds(right, aliases);
      PairValues(W(Key.Open), InlineScalar(left, aliases).value, W(Key.Calculate(op)),
                 InlineScalar(right, aliases).value,
                 W(Key.Close));
    case Aggregate(kind, column, distinct) => PlainIs(AggregateSql(kind, column, distinct, aliases).value);
    case Function(name, args) =>
      ScalarsBind(args, aliases, true);
      AroundValues(W(Key.Call(name)), InlineArgs(args, aliases, true).value, W(Key.Close));
    case Case(branches, otherwise) =>
      BranchesBind(branches, aliases);
      CaseBinds(s, aliases);
    case Window(name, args, partitionBy, windowOrder) =>
      ScalarsBind(args, aliases, true);
      var tail := WindowTail(partitionBy, windowOrder, aliases).value;
      PlainIs(tail);
      PairValues(W(Key.Call(name)), InlineArgs(args, aliases, true).value, W(Key.OverOpen), tail, []);
  }

  lemma {:induction false} CaseBinds(s: Scalar, aliases: Aliases)
    requires s.Case? && InlineScalar(s, aliases).Some?
    requires Bindings(InlineBranches(s.branches, aliases).value) == BranchesValues(s.branches)
    ensures Bindings(InlineScalar(s, aliases).value) == ScalarValues(s)
    decreases s.otherwise
  {
    hide Bindings;
    var bs := InlineBranches(s.branches, aliases).value;
    match s.otherwise
    case NoElse =>
      PlainIs([]);
      PairValues(W(Key.CaseBegin), bs, [], [], W(Key.CaseEnd));
    case Else(e) =>
      ScalarBinds(e, aliases);
      var x := InlineScalar(e, aliases).value;
      AroundValues(W(Key.CaseElse), x, []);
      PairValues(W(Key.CaseBegin), bs, [], W(Key.CaseElse) + x + [], W(Key.CaseEnd));
  }

  lemma {:induction false} ScalarsBind(args: seq<Scalar>, aliases: Aliases, first: bool)
    requires InlineArgs(args, aliases, first).Some?
    ensures Bindings(InlineArgs(args, aliases, first).value) == ScalarsValues(args)
    decreases args, 1
  {
    hide Bindings;
    if args == [] {
      PlainIs([]);
    } else {
      ScalarBinds(args[0], aliases);
      ScalarsBind(args[1..], aliases, false);
      PairValues(Separator(first, Key.Comma), InlineScalar(args[0], aliases).value, [],
                 InlineArgs(args[1..], aliases, false).value, []);
    }
  }

  lemma {:induction false} BranchBinds(b: Branch, aliases: Aliases)
    requires InlineBranch(b, aliases).Some?
    ensures Bindings(InlineBranch(b, aliases).value) == BranchValues(b)
    decreases b, 1
  {
    hide Bindings;
    ExprBinds(b.condition, aliases);
    ScalarBinds(b.result, aliases);
    PairValues(W(Key.CaseWhen), InlineExpr(b.condition, aliases).value, W(Key.CaseThen),
               InlineScalar(b.result, aliases).value, []);
  }

  lemma {:induction false} BranchesBind(bs: seq<Branch>, aliases: Aliases)
    requires InlineBranches(bs, aliases).Some?
    ensures Bindings(InlineBranches(bs, aliases).value) == BranchesValues(bs)
    decreases bs, 2
  {
    hide Bindings;
    if bs == [] {
      PlainIs([]);
    } else {
      BranchBinds(bs[0], aliases);
      BranchesBind(bs[1..], aliases);
      PairValues([], InlineBranch(bs[0], aliases).value, [], InlineBranches(bs[1..], aliases).value, []);
    }
  }

  lemma {:induction false} ExprBinds(e: Expr, aliases: Aliases)
    requires InlineExpr(e, aliases).Some?
    ensures Bindings(InlineExpr(e, aliases).value) == ExprValues(e)
    decreases e, 1
  {
    hide Bindings, InlineScalar, InlineSelect, LiteralList;
    match e
    case Comparison(left, op, right) =>
      ScalarBinds(left, aliases);
      ScalarBinds(right, aliases);
      PairValues([], InlineScalar(left, aliases).value, W(Key.Compare(op)), InlineScalar(right, aliases).value, []);
    case NullCheck(operand, negated) =>
      ScalarBinds(operand, aliases);
      AroundValues([], InlineScalar(operand, aliases).value, W(Key.IsNull(negated)));
    case Like(operand, pattern, negated) =>
      ScalarBinds(operand, aliases);
      ScalarBinds(pattern, aliases);
      PairValues([], InlineScalar(operand, aliases).value, W(Key.Like(negated)), InlineScalar(pattern, aliases).value,
                 []);
    case Between(_, _, _, _) => RangeBinds(e, aliases);
    case InValues(_, _, _) => InBinds(e, aliases);
    case InSubquery(_, _, _) => InBinds(e, aliases);
    case Exists(query, negated) =>
      SelectBinds(query, "", None);
      AroundValues(W(Key.Exists(negated)), InlineSelect(query, "", None).value, W(Key.Close));
    case Logical(isAnd, first, second) =>
      ExprBinds(first, aliases);
      ExprBinds(second, aliases);
      PairValues(W(Key.Open), InlineExpr(first, aliases).value, W(Key.Connect(isAnd)),
                 InlineExpr(second, aliases).value,
                 W(Key.Close));
    case Not(inner) =>
      ExprBinds(inner, aliases);
      AroundValues(W(Key.NotOpen), InlineExpr(inner, aliases).value, W(Key.Close));
  }

  lemma {:induction false} RangeBinds(e: Expr, aliases: Aliases)
    requires e.Between? && InlineExpr(e, aliases).Some?
    ensures Bindings(InlineExpr(e, aliases).value) == ExprValues(e)
    decreases e, 0
  {
    hide Bindings, InlineScalar;
    var Between(operand, lower, upper, negated) := e;
    ScalarBinds(operand, aliases);
    ScalarBinds(lower, aliases);
    ScalarBinds(upper, aliases);
    RangeValues(InlineScalar(operand, aliases).value, negated, InlineScalar(lower, aliases).value,
                InlineScalar(upper, aliases).value);
    assert InlineExpr(e, aliases).value
        == [] + InlineScalar(operand, aliases).value + W(Key.Between(negated))
           + ([] + InlineScalar(lower, aliases).value + W(Key.Connect(true)) + InlineScalar(upper, aliases).value + [])
           + [];
  }

  lemma RangeValues(x: Sql, negated: bool, l: Sql, u: Sql)
    ensures Bindings([] + x + W(Key.Between(negated)) + ([] + l + W(Key.Connect(true)) + u + []) + [])
         == Bindings(x) + Bindings(l) + Bindings(u)
  {
    hide Bindings;
    var range := [] + l + W(Key.Connect(true)) + u + [];
    PairValues([], l, W(Key.Connect(true)), u, []);
    PairValues([], x, W(Key.Between(negated)), range, []);
  }

  lemma {:induction false} InBinds(e: Expr, aliases: Aliases)
    requires (e.InValues? || e.InSubquery?) && InlineExpr(e, aliases).Some?
    ensures Bindings(InlineExpr(e, aliases).value) == ExprValues(e)
    decreases e, 0
  {
    hide Bindings, InlineScalar, InlineSelect, LiteralList;
    match e
    case InValues(operand, values, negated) =>
      if values == [] {
        PlainIs(W(Key.Truth(negated)));
      } else {
        ScalarBinds(operand, aliases);
        ListValues(values, true);
        PairValues([], InlineScalar(operand, aliases).value, W(Key.InOpen(negated)), LiteralList(values, true),
                   W(Key.Close));
      }
    case InSubquery(operand, query, negated) =>
      ScalarBinds(operand, aliases);
      SelectBinds(query, "", None);
      PairValues([], InlineScalar(operand, aliases).value, W(Key.InOpen(negated)), InlineSelect(query, "", None).value,
                 W(Key.Close));
  }

  lemma {:induction false} ProjectionBinds(p: Projection, aliases: Aliases)
    requires InlineProjection(p, aliases).Some?
    ensures Bindings(InlineProjection(p, aliases).value) == ProjectionValues(p)
    decreases p, 1
  {
    hide Bindings;
    ScalarBinds(p.expression, aliases);
    AroundValues([], InlineScalar(p.expression, aliases).value,
                 match p.alias case None => [] case Some(a) => W(Key.As) + [Name(a)]);
  }

  lemma {:induction false} ProjectionsBind(ps: seq<Projection>, aliases: Aliases, first: bool)
    requires InlineProjections(ps, aliases, first).Some?
    ensures Bindings(InlineProjections(ps, aliases, first).value) == ProjectionsValues(ps)
    decreases ps, 2
  {
    hide Bindings;
    if ps == [] {
      PlainIs([]);
    } else {
      ProjectionBinds(ps[0], aliases);
      ProjectionsBind(ps[1..], aliases, false);
      PairValues(Separator(first, Key.Comma), InlineProjection(ps[0], aliases).value, [],
                 InlineProjections(ps[1..], aliases, false).value, []);
    }
  }

  lemma {:induction false} FilterBinds(f: Filter, rootAlias: string)
    requires InlineFilter(f, rootAlias).Some?
    ensures Bindings(InlineFilter(f, rootAlias).value) == FilterValues(f)
    decreases f, 1
  {
    hide Bindings, InlineSelect;
    var extra := Some(Extra(f.relation, rootAlias));
    SelectBinds(f.child, rootAlias + "_rel", extra);
    AroundValues(FilterOpening(f.negated), InlineSelect(f.child, rootAlias + "_rel", extra).value, FilterClosing());
  }

  lemma {:induction false} FiltersBind(fs: seq<Filter>, rootAlias: string, first: bool)
    requires InlineFilters(fs, rootAlias, first).Some?
    ensures Bindings(InlineFilters(fs, rootAlias, first).value) == FilterListValues(fs)
    decreases fs, 2
  {
    hide Bindings;
    if fs == [] {
      PlainIs([]);
    } else {
      FilterBinds(fs[0], rootAlias);
      FiltersBind(fs[1..], rootAlias, false);
      PairValues(Separator(first, Key.Connect(true)), InlineFilter(fs[0], rootAlias).value, [],
                 InlineFilters(fs[1..], rootAlias, false).value, []);
    }
  }

  function RelationOf(extra: Option<Extra>): Option<Correlation> {
    match extra case None => None case Some(x) => Some(x.relation)
  }

  lemma OwnBinds(extra: Option<Extra>, rootAlias: string)
    ensures Bindings(OwnCondition(extra, rootAlias)) == RelationValues(RelationOf(extra))
  {
    hide Bindings;
    if extra.Some? && extra.value.relation.Morph? {
      var Morph(idColumn, localColumn, typeColumn, typeValue) := extra.value.relation;
      var before := QualifiedColumn(rootAlias, idColumn) + W(Key.Compare(Eq))
                    + QualifiedColumn(extra.value.outerAlias, localColumn) + W(Key.Connect(true))
                    + QualifiedColumn(rootAlias, typeColumn) + W(Key.Compare(Eq));
      OneValue(Text(typeValue));
      AroundValues(before, [Literal(Text(typeValue))], []);
      assert before + [Literal(Text(typeValue))] + [] == OwnCondition(extra, rootAlias);
    } else {
      PlainIs(OwnCondition(extra, rootAlias));
    }
  }

  lemma {:induction false} ExtraBinds(filters: Filters, extra: Option<Extra>, rootAlias: string)
    requires InlineExtra(filters, extra, rootAlias).Some?
    ensures Bindings(InlineExtra(filters, extra, rootAlias).value)
         == FiltersValues(filters) + RelationValues(RelationOf(extra))
    decreases filters, 3
  {
    hide Bindings, OwnCondition;
    OwnBinds(extra, rootAlias);
    match filters
    case Plain =>
    case Filtered(fs) =>
      FiltersBind(fs, rootAlias, true);
      PairValues([], InlineFilters(fs, rootAlias, true).value,
                 if extra.None? then [] else Separator(fs == [], Key.Connect(true)) + W(Key.Open),
                 OwnCondition(extra, rootAlias), if extra.None? then [] else W(Key.Close));
  }

  lemma {:induction false} CteBinds(c: Cte)
    requires InlineCte(c).Some?
    ensures Bindings(InlineCte(c).value) == CteValues(c)
    decreases c, 1
  {
    hide Bindings, InlineSelect, CteHead;
    SelectBinds(c.query, "", None);
    AroundValues(CteHead(c), InlineSelect(c.query, "", None).value, W(Key.Close));
  }

  lemma {:induction false} CtesBind(cs: seq<Cte>, first: bool)
    requires InlineCtes(cs, first).Some?
    ensures Bindings(InlineCtes(cs, first).value) == CtesValues(cs)
    decreases cs, 2
  {
    hide Bindings;
    if cs == [] {
      PlainIs([]);
    } else {
      CteBinds(cs[0]);
      CtesBind(cs[1..], false);
      PairValues(Separator(first, Key.Comma), InlineCte(cs[0]).value, [], InlineCtes(cs[1..], false).value, []);
    }
  }

  lemma {:induction false} OperationBinds(o: SetOperation)
    requires InlineSetOperation(o).Some?
    ensures Bindings(InlineSetOperation(o).value) == OperationValues(o)
    decreases o, 1
  {
    hide Bindings, InlineSelect;
    SelectBinds(o.query, "", None);
    AroundValues(W(Key.Combine(o.op)), InlineSelect(o.query, "", None).value, []);
  }

  lemma {:induction false} OperationsBind(os: seq<SetOperation>)
    requires InlineSetOperations(os).Some?
    ensures Bindings(InlineSetOperations(os).value) == OperationsValues(os)
    decreases os, 2
  {
    hide Bindings;
    if os == [] {
      PlainIs([]);
    } else {
      OperationBinds(os[0]);
      OperationsBind(os[1..]);
      PairValues([], InlineSetOperation(os[0]).value, [], InlineSetOperations(os[1..]).value, []);
    }
  }

  lemma {:induction false} SourceBinds(q: Select, rootAlias: string)
    requires InlineSource(q, rootAlias).Some?
    ensures Bindings(InlineSource(q, rootAlias).value) == OriginValues(q.source)
    decreases q, 1
  {
    hide Bindings, InlineSelect;
    match q.source
    case From(_) => PlainIs(InlineSource(q, rootAlias).value);
    case Derived(alias, query) =>
      SelectBinds(query, "", None);
      AroundValues(W(Key.Open), InlineSelect(query, "", None).value,
                   W(Key.CloseAs) + [Name(if rootAlias == "" then alias else rootAlias)]);
  }

  lemma {:induction false} ConditionBinds(q: Select, extra: Option<Extra>, rootAlias: string, aliases: Aliases)
    requires InlineCondition(q, extra, rootAlias, aliases).Some?
    ensures Bindings(InlineCondition(q, extra, rootAlias, aliases).value)
         == ConditionValues(q.condition) + FiltersValues(q.filters) + RelationValues(RelationOf(extra))
    decreases q, 1
  {
    hide Bindings, InlineExpr, InlineExtra, FiltersValues, RelationValues;
    ExtraBinds(q.filters, extra, rootAlias);
    var x := InlineExtra(q.filters, extra, rootAlias).value;
    PlainIs([]);
    match q.condition
    case Always => AroundValues(W(Key.Where), x, []);
    case Where(e) =>
      ExprBinds(e, aliases);
      var c := InlineExpr(e, aliases).value;
      AroundValues(W(Key.Where), c, []);
      PairValues(W(Key.WhereOpen), c, W(Key.CloseAndOpen), x, W(Key.Close));
  }

  lemma {:induction false} RestBinds(q: Select, rootAlias: string, aliases: Aliases)
    ensures HavingSql(q, aliases).Some? ==> Bindings(HavingSql(q, aliases).value) == ConditionValues(q.having)
    ensures CtesSql(q).Some? ==> Bindings(CtesSql(q).value) == CtesValues(q.ctes)
    ensures SelectList(q, rootAlias, aliases).Some? ==>
              Bindings(SelectList(q, rootAlias, aliases).value) == ProjectionsValues(q.projections)
    decreases q, 1
  {
    hide Bindings, InlineExpr, InlineCtes, InlineProjections, RootColumns;
    PlainIs([]);
    if HavingSql(q, aliases).Some? && q.having.Where? {
      ExprBinds(q.having.e, aliases);
      AroundValues(W(Key.Having), InlineExpr(q.having.e, aliases).value, []);
    }
    if CtesSql(q).Some? && q.ctes != [] {
      CtesBind(q.ctes, true);
      AroundValues(W(Key.With(AnyRecursive(q.ctes))), InlineCtes(q.ctes, true).value, W(Key.Space));
    }
    if SelectList(q, rootAlias, aliases).Some? {
      var head := W(Key.Select) + (if q.distinct then W(Key.Distinctly) else []);
      if q.projections == [] {
        PlainIs(RootColumns(q.columns, rootAlias, true));
        AroundValues(head, RootColumns(q.columns, rootAlias, true), W(Key.From));
      } else {
        ProjectionsBind(q.projections, aliases, true);
        AroundValues(head, InlineProjections(q.projections, aliases, true).value, W(Key.From));
      }
    }
  }

  lemma EightBind(a: Sql, b: Sql, c: Sql, d: Sql, e: Sql, f: Sql, g: Sql, h: Sql)
    ensures Bindings(a + b + c + d + e + f + g + h)
         == Bindings(a) + Bindings(b) + Bindings(c) + Bindings(d) + Bindings(e) + Bindings(f) + Bindings(g)
         + Bindings(h)
  {
    hide Bindings;
    BindingsAppend(a, b);
    BindingsAppend(a + b, c);
    BindingsAppend(a + b + c, d);
    BindingsAppend(a + b + c + d, e);
    BindingsAppend(a + b + c + d + e, f);
    BindingsAppend(a + b + c + d + e + f, g);
    BindingsAppend(a + b + c + d + e + f + g, h);
  }

  lemma {:induction false} SelectBinds(q: Select, override: string, extra: Option<Extra>)
    requires InlineSelect(q, override, extra).Some?
    ensures Bindings(InlineSelect(q, override, extra).value) == SelectValues(q, RelationOf(extra))
    decreases q, 2
  {
    hide Bindings, InlineSelect, SelectList, InlineSource, CteJoinList, InlineCondition, GroupSql, HavingSql,
         InlineSetOperations, Tail, CtesSql, QueryAlias, QueryAliases, JoinText, RelationOf, RelationValues,
         FiltersValues, OriginValues, ConditionValues, CtesValues, ProjectionsValues, OperationsValues;
    var rootAlias, aliases := QueryAlias(q, override, extra), QueryAliases(q, override, extra);
    PartsOf(q, override, extra);
    var joins := JoinText(q, override, extra).value.1;
    RestBinds(q, rootAlias, aliases);
    SourceBinds(q, rootAlias);
    ConditionBinds(q, extra, rootAlias, aliases);
    OperationsBind(q.setOperations);
    var cteJoins, group, having := CteJoinList(q.cteJoins, aliases).value, GroupSql(q, aliases).value,
                                   HavingSql(q, aliases).value;
    JoinsArePlain(q, override, extra);
    AroundValues(joins, cteJoins, []);
    PlainIs(cteJoins);
    PairValues([], group, [], having, []);
    PlainIs(group);
    PlainIs(Tail(q, aliases).value);
    EightBind(CtesSql(q).value, SelectList(q, rootAlias, aliases).value, InlineSource(q, rootAlias).value,
              joins + cteJoins + [], InlineCondition(q, extra, rootAlias, aliases).value, [] + group + [] + having + [],
              InlineSetOperations(q.setOperations).value, Tail(q, aliases).value);
  }

  lemma JoinsArePlain(q: Select, override: string, extra: Option<Extra>)
    ensures JoinText(q, override, extra).Some? ==> IsPlain(JoinText(q, override, extra).value.1)
  {
    hide QueryAlias;
  }
}
