/** Queries as data, and their SQL with every value written in place. */
module Queries {
  import opened Wrappers
  import opened Values
  import opened Decimals
  import opened Tokens
  import opened SqlWords

  // ----- expressions and queries

  datatype ColumnRef = ColumnRef(owner: string, column: string)

  datatype OrderBy = OrderBy(column: ColumnRef, ascending: bool)

  datatype Scalar =
    | Column(c: ColumnRef)
    | Constant(v: Value)
    | Arithmetic(left: Scalar, op: ArithmeticOp, right: Scalar)
    | Aggregate(kind: AggregateKind, column: Option<ColumnRef>, distinct: bool)
    | Function(name: string, args: seq<Scalar>)
    | Case(branches: seq<Branch>, otherwise: Otherwise)
    | Window(name: string, args: seq<Scalar>, partitionBy: seq<ColumnRef>, windowOrder: seq<OrderBy>)

  datatype Otherwise = NoElse | Else(value: Scalar)

  datatype Branch = Branch(condition: Expr, result: Scalar)

  datatype Expr =
    | Comparison(left: Scalar, op: CompareOp, right: Scalar)
    | NullCheck(operand: Scalar, negated: bool)
    | Like(operand: Scalar, pattern: Scalar, negated: bool)
    | Between(operand: Scalar, lower: Scalar, upper: Scalar, negated: bool)
    | InValues(operand: Scalar, values: seq<Value>, negated: bool)
    | InSubquery(operand: Scalar, query: Select, negated: bool)
    | Exists(query: Select, negated: bool)
    | Logical(isAnd: bool, first: Expr, second: Expr)
    | Not(inner: Expr)

  datatype Projection = Projection(expression: Scalar, alias: Option<string>)

  datatype Pivot = Pivot(table: string, rootColumn: string, targetColumn: string)

  datatype Join = Join(isLeft: bool, owner: string, target: string, targetTable: string,
                       ownerColumn: string, targetColumn: string, pivot: Option<Pivot>)

  datatype CteJoin = CteJoin(isLeft: bool, cte: string, ownerColumn: ColumnRef, cteColumn: string)

  datatype Cte = Cte(name: string, columns: seq<string>, recursive: bool, query: Select)

  datatype SetOperation = SetOperation(op: SetOperator, query: Select)

  datatype Source = From(name: string) | Derived(alias: string, query: Select)

  datatype Condition = Always | Where(e: Expr)

  /** How the rows of a relation hang together with those of its owner. */
  datatype Correlation =
    | Direct(childColumn: string, outerColumn: string)
    | Through(pivot: string, pivotTarget: string, targetColumn: string, pivotRoot: string, localColumn: string)
    | Morph(idColumn: string, localColumn: string, typeColumn: string, typeValue: string)

  datatype Filter = Filter(negated: bool, relation: Correlation, child: Select)

  /** What a relation filter adds to the query of its child rows. */
  datatype Extra = Extra(relation: Correlation, outerAlias: string)

  /** A plain query, or a query with relation filters, even if it has none yet. */
  datatype Filters = Plain | Filtered(list: seq<Filter>)

  datatype Select = Select(
    root: string, columns: seq<string>, distinct: bool, projections: seq<Projection>,
    source: Source, joins: seq<Join>, cteJoins: seq<CteJoin>,
    condition: Condition, filters: Filters, groupBy: seq<ColumnRef>, having: Condition,
    ctes: seq<Cte>, setOperations: seq<SetOperation>, orderBy: seq<OrderBy>,
    limit: Option<nat>, offset: Option<nat>)

  type Aliases = map<string, string>

  // ----- parts without parameters

  /** One text after another; none if either is missing. */
  function Then(a: Option<Sql>, b: Option<Sql>): Option<Sql> {
    if a.None? || b.None? then None else Some(a.value + b.value)
  }

  /** A text with something before and after it. */
  function Around(before: Sql, x: Option<Sql>, after: Sql): Option<Sql> {
    if x.None? then None else Some(before + x.value + after)
  }

  /** Two texts with something before, between and after them. */
  function Pair(before: Sql, x: Option<Sql>, between: Sql, y: Option<Sql>, after: Sql): Option<Sql> {
    if x.None? || y.None? then None else Some(before + x.value + between + y.value + after)
  }

  function W(k: Key): (t: Sql)
    ensures IsPlain(t)
  {
    [Word(k)]
  }

  function Separator(first: bool, k: Key): (t: Sql)
    ensures IsPlain(t)
  {
    if first then [] else W(k)
  }

  function QualifiedColumn(alias: string, column: string): (t: Sql)
    ensures IsPlain(t)
  {
    [Name(alias)] + W(Key.Dot) + [Name(column)]
  }

  /** A column of an entity that the query does not know is an error. */
  function ColumnSql(c: ColumnRef, aliases: Aliases): (r: Option<Sql>)
    ensures r.Some? ==> IsPlain(r.value)
  {
    if c.owner !in aliases then None
    else if aliases[c.owner] == "" then Some([Name(c.column)])
    else Some(QualifiedColumn(aliases[c.owner], c.column))
  }

  function ColumnList(cs: seq<ColumnRef>, aliases: Aliases, first: bool): (r: Option<Sql>)
    ensures r.Some? ==> IsPlain(r.value)
  {
    if cs == [] then Some([])
    else Pair(Separator(first, Key.Comma), ColumnSql(cs[0], aliases), [], ColumnList(cs[1..], aliases, false), [])
  }

  function OrderList(os: seq<OrderBy>, aliases: Aliases, first: bool): (r: Option<Sql>)
    ensures r.Some? ==> IsPlain(r.value)
  {
    if os == [] then Some([])
    else Pair(Separator(first, Key.Comma), ColumnSql(os[0].column, aliases), W(Key.Direction(os[0].ascending)),
              OrderList(os[1..], aliases, false), [])
  }

  function NameList(names: seq<string>, first: bool): (t: Sql)
    ensures IsPlain(t)
  {
    if names == [] then [] else Separator(first, Key.Comma) + [Name(names[0])] + NameList(names[1..], false)
  }

  function AggregateSql(kind: AggregateKind, column: Option<ColumnRef>, distinct: bool, aliases: Aliases)
    : (r: Option<Sql>)
    ensures r.Some? ==> IsPlain(r.value)
  {
    Around(W(Key.Call(AggregateName(kind))) + (if distinct then W(Key.Distinctly) else []),
           match column case Some(c) => ColumnSql(c, aliases) case None => Some(W(Key.Star)),
           W(Key.Close))
  }

  /** The columns of the root entity, for a query that projects nothing. */
  function RootColumns(columns: seq<string>, alias: string, first: bool): (t: Sql)
    ensures IsPlain(t)
  {
    if columns == [] then []
    else
      Separator(first, Key.Comma)
      + (if alias != "" then QualifiedColumn(alias, columns[0]) + W(Key.As) + [Name(columns[0])]
         else [Name(columns[0])])
      + RootColumns(columns[1..], alias, false)
  }

  function Keyword(isLeft: bool): (t: Sql)
    ensures IsPlain(t)
  {
    W(Key.JoinOn(isLeft))
  }

  function TargetAlias(rootAlias: string, correlated: bool, entity: nat): string {
    if correlated then rootAlias + "_j" + ToString(entity) else "t" + ToString(entity)
  }

  function PivotAlias(rootAlias: string, correlated: bool, pivot: nat): string {
    if correlated then rootAlias + "_p" + ToString(pivot) else "p" + ToString(pivot)
  }

  function JoinSql(j: Join, owner: string, target: string, pivotAlias: string): (t: Sql)
    ensures IsPlain(t)
  {
    match j.pivot
    case Some(p) =>
      Keyword(j.isLeft) + [Name(p.table)] + W(Key.As) + [Name(pivotAlias)] + W(Key.On)
      + QualifiedColumn(pivotAlias, p.rootColumn) + W(Key.Compare(Eq)) + QualifiedColumn(owner, j.ownerColumn)
      + Keyword(j.isLeft) + [Name(j.targetTable)] + W(Key.As) + [Name(target)] + W(Key.On)
      + QualifiedColumn(target, j.targetColumn) + W(Key.Compare(Eq)) + QualifiedColumn(pivotAlias, p.targetColumn)
    case None =>
      Keyword(j.isLeft) + [Name(j.targetTable)] + W(Key.As) + [Name(target)] + W(Key.On)
      + QualifiedColumn(owner, j.ownerColumn) + W(Key.Compare(Eq)) + QualifiedColumn(target, j.targetColumn)
  }

  /** The aliases and the text of the joins, which number their tables and their pivot tables. */
  function Joined(joins: seq<Join>, aliases: Aliases, rootAlias: string, correlated: bool, entity: nat, pivot: nat)
    : (r: Option<(Aliases, Sql)>)
    ensures r.Some? ==> IsPlain(r.value.1)
  {
    if joins == [] then Some((aliases, []))
    else
      var j := joins[0];
      if j.owner !in aliases then None
      else
        var target := TargetAlias(rootAlias, correlated, entity);
        var aliases' := if j.target in aliases then aliases else aliases[j.target := target];
        match Joined(joins[1..], aliases', rootAlias, correlated, entity + 1,
                     if j.pivot.Some? then pivot + 1 else pivot)
        case None => None
        case Some((all, rest)) =>
          Some((all, JoinSql(j, aliases[j.owner], target, PivotAlias(rootAlias, correlated, pivot)) + rest))
  }

  function CteJoinList(joins: seq<CteJoin>, aliases: Aliases): (r: Option<Sql>)
    ensures r.Some? ==> IsPlain(r.value)
  {
    if joins == [] then Some([])
    else
      var j := joins[0];
      Pair(Keyword(j.isLeft) + [Name(j.cte)] + W(Key.On), ColumnSql(j.ownerColumn, aliases),
           W(Key.Compare(Eq)) + QualifiedColumn(j.cte, j.cteColumn), CteJoinList(joins[1..], aliases), [])
  }

  function RootAlias(q: Select, override: string, hasExtra: bool): string {
    if override != "" then override
    else if q.source.Derived? then q.source.alias
    else if q.joins != [] || q.cteJoins != [] || hasExtra then "t0"
    else ""
  }

  /** The correlation of a relation; a morph compares its type column with a value. */
  function CorrelationSql(c: Correlation, child: string, outer: string): (t: Sql)
    ensures !c.Morph? ==> IsPlain(t)
    ensures IsInline(t) && t != []
  {
    match c
    case Direct(childColumn, outerColumn) =>
      QualifiedColumn(child, childColumn) + W(Key.Compare(Eq)) + QualifiedColumn(outer, outerColumn)
    case Through(pivot, pivotTarget, targetColumn, pivotRoot, localColumn) =>
      W(Key.ExistsRow) + [Name(pivot)] + W(Key.As) + [Name(child + "_pivot")] + W(Key.Where)
      + QualifiedColumn(child + "_pivot", pivotTarget) + W(Key.Compare(Eq)) + QualifiedColumn(child, targetColumn)
      + W(Key.Connect(true))
      + QualifiedColumn(child + "_pivot", pivotRoot) + W(Key.Compare(Eq)) + QualifiedColumn(outer, localColumn)
      + W(Key.Close)
    case Morph(idColumn, localColumn, typeColumn, typeValue) =>
      QualifiedColumn(child, idColumn) + W(Key.Compare(Eq)) + QualifiedColumn(outer, localColumn) + W(Key.Connect(true))
      + QualifiedColumn(child, typeColumn) + W(Key.Compare(Eq)) + [Literal(Text(typeValue))]
  }

  function Arity(q: Select): nat { if q.projections != [] then |q.projections| else |q.columns| }

  // ----- with values in place

  function InlineScalar(s: Scalar, aliases: Aliases): Option<Sql>
    decreases s, 0
  {
    match s
    case Column(c) => ColumnSql(c, aliases)
    case Constant(v) => Some([Literal(v)])
    case Arithmetic(left, op, right) =>
      Pair(W(Key.Open), InlineScalar(left, aliases), W(Key.Calculate(op)), InlineScalar(right, aliases), W(Key.Close))
    case Aggregate(kind, column, distinct) => AggregateSql(kind, column, distinct, aliases)
    case Function(name, args) =>
      if !IsFunctionName(name) then None else Around(W(Key.Call(name)), InlineArgs(args, aliases, true), W(Key.Close))
    case Case(branches, otherwise) =>
      if branches == [] then None
      else Pair(W(Key.CaseBegin), InlineBranches(branches, aliases), [],
                match otherwise
                case NoElse => Some([])
                case Else(e) => Around(W(Key.CaseElse), InlineScalar(e, aliases), []),
                W(Key.CaseEnd))
    case Window(name, args, partitionBy, windowOrder) =>
      if !IsFunctionName(name) then None
      else Pair(W(Key.Call(name)), InlineArgs(args, aliases, true), W(Key.OverOpen),
                WindowTail(partitionBy, windowOrder, aliases), [])
  }

  function WindowTail(partitionBy: seq<ColumnRef>, windowOrder: seq<OrderBy>, aliases: Aliases): (r: Option<Sql>)
    ensures r.Some? ==> IsPlain(r.value)
  {
    Pair(if partitionBy == [] then [] else W(Key.PartitionBy), ColumnList(partitionBy, aliases, true),
         (if partitionBy == [] || windowOrder == [] then [] else W(Key.Space))
         + (if windowOrder == [] then [] else W(Key.OrderInside)),
         OrderList(windowOrder, aliases, true), W(Key.Close))
  }

  function InlineArgs(args: seq<Scalar>, aliases: Aliases, first: bool): Option<Sql>
    decreases args, 1
  {
    if args == [] then Some([])
    else Pair(Separator(first, Key.Comma), InlineScalar(args[0], aliases), [], InlineArgs(args[1..], aliases, false),
              [])
  }

  function InlineBranch(b: Branch, aliases: Aliases): Option<Sql>
    decreases b, 1
  {
    Pair(W(Key.CaseWhen), InlineExpr(b.condition, aliases), W(Key.CaseThen), InlineScalar(b.result, aliases), [])
  }

  function InlineBranches(bs: seq<Branch>, aliases: Aliases): Option<Sql>
    decreases bs, 2
  {
    if bs == [] then Some([]) else Pair([], InlineBranch(bs[0], aliases), [], InlineBranches(bs[1..], aliases), [])
  }

  function LiteralList(vs: seq<Value>, first: bool): Sql {
    if vs == [] then [] else Separator(first, Key.Comma) + [Literal(vs[0])] + LiteralList(vs[1..], false)
  }

  function InlineExpr(e: Expr, aliases: Aliases): Option<Sql>
    decreases e, 0
  {
    match e
    case Comparison(left, op, right) =>
      Pair([], InlineScalar(left, aliases), W(Key.Compare(op)), InlineScalar(right, aliases), [])
    case NullCheck(operand, negated) =>
      Around([], InlineScalar(operand, aliases), W(Key.IsNull(negated)))
    case Like(operand, pattern, negated) =>
      Pair([], InlineScalar(operand, aliases), W(Key.Like(negated)),
           InlineScalar(pattern, aliases), [])
    case Between(operand, lower, upper, negated) =>
      Pair([], InlineScalar(operand, aliases), W(Key.Between(negated)),
           Pair([], InlineScalar(lower, aliases), W(Key.Connect(true)), InlineScalar(upper, aliases), []), [])
    case InValues(operand, values, negated) =>
      if values == [] then Some(W(Key.Truth(negated)))
      else Pair([], InlineScalar(operand, aliases), W(Key.InOpen(negated)),
                Some(LiteralList(values, true)), W(Key.Close))
    case InSubquery(operand, query, negated) =>
      if Arity(query) != 1 then None
      else Pair([], InlineScalar(operand, aliases), W(Key.InOpen(negated)),
                InlineSelect(query, "", None), W(Key.Close))
    case Exists(query, negated) =>
      Around(W(Key.Exists(negated)), InlineSelect(query, "", None), W(Key.Close))
    case Logical(isAnd, first, second) =>
      Pair(W(Key.Open), InlineExpr(first, aliases), W(Key.Connect(isAnd)), InlineExpr(second, aliases),
           W(Key.Close))
    case Not(inner) => Around(W(Key.NotOpen), InlineExpr(inner, aliases), W(Key.Close))
  }

  function InlineProjection(p: Projection, aliases: Aliases): Option<Sql>
    decreases p, 1
  {
    Around([], InlineScalar(p.expression, aliases), match p.alias case None => [] case Some(a) => W(Key.As) + [Name(a)])
  }

  function InlineProjections(ps: seq<Projection>, aliases: Aliases, first: bool): Option<Sql>
    decreases ps, 2
  {
    if ps == [] then Some([])
    else Pair(Separator(first, Key.Comma), InlineProjection(ps[0], aliases), [],
              InlineProjections(ps[1..], aliases, false), [])
  }

  function CteHead(c: Cte): (t: Sql)
    ensures IsPlain(t)
  {
    [Name(c.name)] + (if c.columns == [] then [] else W(Key.ListOpen) + NameList(c.columns, true) + W(Key.Close))
    + W(Key.AsOpen)
  }

  function InlineCte(c: Cte): Option<Sql>
    decreases c, 1
  {
    Around(CteHead(c), InlineSelect(c.query, "", None), W(Key.Close))
  }

  function InlineCtes(cs: seq<Cte>, first: bool): Option<Sql>
    decreases cs, 2
  {
    if cs == [] then Some([])
    else Pair(Separator(first, Key.Comma), InlineCte(cs[0]), [], InlineCtes(cs[1..], false), [])
  }

  function InlineSetOperation(o: SetOperation): Option<Sql>
    decreases o, 1
  {
    Around(W(Key.Combine(o.op)), InlineSelect(o.query, "", None), [])
  }

  function InlineSetOperations(os: seq<SetOperation>): Option<Sql>
    decreases os, 2
  {
    if os == [] then Some([]) else Pair([], InlineSetOperation(os[0]), [], InlineSetOperations(os[1..]), [])
  }

  function FilterOpening(negated: bool): (t: Sql)
    ensures IsPlain(t)
  {
    W(Key.Open) + W(Key.Exists(negated))
  }

  function FilterClosing(): (t: Sql)
    ensures IsPlain(t)
  {
    W(Key.Close) + W(Key.Close)
  }

  function InlineFilter(f: Filter, rootAlias: string): Option<Sql>
    decreases f, 1
  {
    Around(FilterOpening(f.negated), InlineSelect(f.child, rootAlias + "_rel", Some(Extra(f.relation, rootAlias))),
           FilterClosing())
  }

  function InlineFilters(fs: seq<Filter>, rootAlias: string, first: bool): Option<Sql>
    decreases fs, 2
  {
    if fs == [] then Some([])
    else Pair(Separator(first, Key.Connect(true)), InlineFilter(fs[0], rootAlias), [],
              InlineFilters(fs[1..], rootAlias, false),
              [])
  }

  /** The correlation with an outer query, where there is one. */
  function OwnCondition(extra: Option<Extra>, rootAlias: string): (t: Sql)
    ensures IsInline(t) && (t == [] <==> extra.None?)
  {
    match extra case None => [] case Some(x) => CorrelationSql(x.relation, rootAlias, x.outerAlias)
  }

  /** What relation filters and the correlation with an outer query add to the condition. */
  function InlineExtra(filters: Filters, extra: Option<Extra>, rootAlias: string): Option<Sql>
    decreases filters, 3
  {
    match filters
    case Plain => Some(OwnCondition(extra, rootAlias))
    case Filtered(fs) =>
      Pair([], InlineFilters(fs, rootAlias, true),
           if extra.None? then [] else Separator(fs == [], Key.Connect(true)) + W(Key.Open),
           Some(OwnCondition(extra, rootAlias)), if extra.None? then [] else W(Key.Close))
  }

  function InlineSource(q: Select, rootAlias: string): Option<Sql>
    decreases q, 1
  {
    match q.source
    case From(name) => Some([Name(name)] + if rootAlias != "" then W(Key.As) + [Name(rootAlias)] else [])
    case Derived(alias, query) =>
      Around(W(Key.Open), InlineSelect(query, "", None),
             W(Key.CloseAs) + [Name(if rootAlias == "" then alias else rootAlias)])
  }

  function InlineCondition(q: Select, extra: Option<Extra>, rootAlias: string, aliases: Aliases): Option<Sql>
    decreases q, 1
  {
    var x := InlineExtra(q.filters, extra, rootAlias);
    match q.condition
    case Always => if x == Some([]) then Some([]) else Around(W(Key.Where), x, [])
    case Where(e) =>
      if x == Some([]) then Around(W(Key.Where), InlineExpr(e, aliases), [])
      else Pair(W(Key.WhereOpen), InlineExpr(e, aliases), W(Key.CloseAndOpen), x, W(Key.Close))
  }

  function Tail(q: Select, aliases: Aliases): (r: Option<Sql>)
    ensures r.Some? ==> IsPlain(r.value)
  {
    Around(if q.orderBy == [] then [] else W(Key.OrderBy), OrderList(q.orderBy, aliases, true),
           (match q.limit case None => [] case Some(n) => W(Key.Limit(n)))
           + (match q.offset case None => [] case Some(n) => W(Key.Offset(n))))
  }

  predicate AnyRecursive(cs: seq<Cte>) { exists i :: 0 <= i < |cs| && cs[i].recursive }

  function CtesSql(q: Select): Option<Sql>
    decreases q, 1
  {
    if q.ctes == [] then Some([])
    else Around(W(Key.With(AnyRecursive(q.ctes))), InlineCtes(q.ctes, true), W(Key.Space))
  }

  function SelectList(q: Select, rootAlias: string, aliases: Aliases): Option<Sql>
    decreases q, 1
  {
    Around(W(Key.Select) + (if q.distinct then W(Key.Distinctly) else []),
           if q.projections == [] then Some(RootColumns(q.columns, rootAlias, true))
           else InlineProjections(q.projections, aliases, true), W(Key.From))
  }

  function GroupSql(q: Select, aliases: Aliases): (r: Option<Sql>)
    ensures r.Some? ==> IsPlain(r.value)
  {
    Around(if q.groupBy == [] then [] else W(Key.GroupBy), ColumnList(q.groupBy, aliases, true), [])
  }

  function HavingSql(q: Select, aliases: Aliases): Option<Sql>
    decreases q, 1
  {
    match q.having case Always => Some([]) case Where(e) => Around(W(Key.Having), InlineExpr(e, aliases), [])
  }

  /** A query with its values in place; none where the compiler raises an error. */
  function InlineSelect(q: Select, override: string, extra: Option<Extra>): Option<Sql>
    decreases q, 2
  {
    var rootAlias := RootAlias(q, override, q.filters.Filtered? || extra.Some?);
    match Joined(q.joins, map[q.root := rootAlias], rootAlias, override != "", 1, 0)
    case None => None
    case Some((aliases, joins)) =>
      Then(Then(Then(Then(Then(Then(Then(
        CtesSql(q),
        SelectList(q, rootAlias, aliases)),
        InlineSource(q, rootAlias)),
        Around(joins, CteJoinList(q.cteJoins, aliases), [])),
        InlineCondition(q, extra, rootAlias, aliases)),
        Pair([], GroupSql(q, aliases), [], HavingSql(q, aliases), [])),
        InlineSetOperations(q.setOperations)),
        Tail(q, aliases))
  }
}
