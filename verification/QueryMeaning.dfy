/** What a query means: the statement that should be read, its values in order, and when there is none. */
module QueryMeaning {
  import opened Wrappers
  import opened Values
  import opened SqlWords
  import opened Queries
  import opened SqlReader

  // ----- columns

  function MeantColumn(c: ColumnRef, aliases: Aliases): ColumnName {
    if c.owner in aliases && aliases[c.owner] != "" then Qualified(aliases[c.owner], c.column) else Bare(c.column)
  }

  function MeantColumns(cs: seq<ColumnRef>, aliases: Aliases): (ms: seq<ColumnName>)
    ensures |ms| == |cs|
  {
    if cs == [] then [] else [MeantColumn(cs[0], aliases)] + MeantColumns(cs[1..], aliases)
  }

  function MeantOrder(os: seq<OrderBy>, aliases: Aliases): (ms: seq<Ordering>)
    ensures |ms| == |os|
  {
    if os == [] then []
    else [Ordering(MeantColumn(os[0].column, aliases), os[0].ascending)] + MeantOrder(os[1..], aliases)
  }

  predicate KnownColumns(cs: seq<ColumnRef>, aliases: Aliases) { forall i | 0 <= i < |cs| :: cs[i].owner in aliases }

  predicate KnownOrder(os: seq<OrderBy>, aliases: Aliases) { forall i | 0 <= i < |os| :: os[i].column.owner in aliases }

  // ----- expressions

  function MeantScalar(s: Scalar, aliases: Aliases): Term
    decreases s, 0
  {
    match s
    case Column(c) => Stored(MeantColumn(c, aliases))
    case Constant(v) => Given(v)
    case Arithmetic(left, op, right) => Calculated(MeantScalar(left, aliases), op, MeantScalar(right, aliases))
    case Aggregate(kind, column, distinct) =>
      Called(AggregateName(kind), distinct, column.None?,
             match column case None => [] case Some(c) => [Stored(MeantColumn(c, aliases))])
    case Function(name, args) => Called(name, false, false, MeantScalars(args, aliases))
    case Case(branches, otherwise) =>
      Chosen(MeantBranches(branches, aliases),
             match otherwise case NoElse => NoFallback case Else(e) => Fallback(MeantScalar(e, aliases)))
    case Window(name, args, partitionBy, windowOrder) =>
      Windowed(name, MeantScalars(args, aliases), MeantColumns(partitionBy, aliases), MeantOrder(windowOrder, aliases))
  }

  function MeantScalars(args: seq<Scalar>, aliases: Aliases): (ms: seq<Term>)
    ensures |ms| == |args|
    decreases args, 1
  {
    if args == [] then [] else [MeantScalar(args[0], aliases)] + MeantScalars(args[1..], aliases)
  }

  function MeantBranch(b: Branch, aliases: Aliases): Choice
    decreases b, 1
  {
    Choice(MeantExpr(b.condition, aliases), MeantScalar(b.result, aliases))
  }

  function MeantBranches(bs: seq<Branch>, aliases: Aliases): (ms: seq<Choice>)
    ensures |ms| == |bs|
    decreases bs, 2
  {
    if bs == [] then [] else [MeantBranch(bs[0], aliases)] + MeantBranches(bs[1..], aliases)
  }

  /** No value is in an empty list. */
  function MeantExpr(e: Expr, aliases: Aliases): Test
    decreases e, 0
  {
    match e
    case Comparison(left, op, right) => Compared(MeantScalar(left, aliases), op, MeantScalar(right, aliases))
    case NullCheck(operand, negated) => Nulled(MeantScalar(operand, aliases), negated)
    case Like(operand, pattern, negated) =>
      Matched(MeantScalar(operand, aliases), MeantScalar(pattern, aliases), negated)
    case Between(operand, lower, upper, negated) =>
      Ranged(MeantScalar(operand, aliases), MeantScalar(lower, aliases), MeantScalar(upper, aliases), negated)
    case InValues(operand, values, negated) =>
      if values == [] then Settled(negated) else Listed(MeantScalar(operand, aliases), values, negated)
    case InSubquery(operand, query, negated) =>
      Selected(MeantScalar(operand, aliases), MeantSelect(query, "", None), negated)
    case Exists(query, negated) => Found(MeantSelect(query, "", None), negated)
    case Logical(isAnd, first, second) => Joint(isAnd, MeantExpr(first, aliases), MeantExpr(second, aliases))
    case Not(inner) => Opposite(MeantExpr(inner, aliases))
  }

  // ----- the parts of a query

  function MeantProjection(p: Projection, aliases: Aliases): Item
    decreases p, 1
  {
    Item(MeantScalar(p.expression, aliases), p.alias)
  }

  function MeantProjections(ps: seq<Projection>, aliases: Aliases): (ms: seq<Item>)
    ensures |ms| == |ps|
    decreases ps, 2
  {
    if ps == [] then [] else [MeantProjection(ps[0], aliases)] + MeantProjections(ps[1..], aliases)
  }

  /** The columns of the root entity, under their own names. */
  function RootItems(columns: seq<string>, alias: string): (ms: seq<Item>)
    ensures |ms| == |columns|
  {
    if columns == [] then []
    else
      [if alias == "" then Item(Stored(Bare(columns[0])), None)
       else Item(Stored(Qualified(alias, columns[0])), Some(columns[0]))] + RootItems(columns[1..], alias)
  }

  /** A join of its own for a pivot table, from the owner to the pivot and from there to the target. */
  function MeantJoin(j: Join, owner: string, target: string, pivotAlias: string): seq<Link> {
    match j.pivot
    case Some(p) =>
      [Link(j.isLeft, p.table, Some(pivotAlias), Qualified(pivotAlias, p.rootColumn), Qualified(owner, j.ownerColumn)),
       Link(j.isLeft, j.targetTable, Some(target), Qualified(target, j.targetColumn),
            Qualified(pivotAlias, p.targetColumn))]
    case None =>
      [Link(j.isLeft, j.targetTable, Some(target), Qualified(owner, j.ownerColumn), Qualified(target, j.targetColumn))]
  }

  /** The aliases once the joins are made, and the joins. */
  function MeantJoins(joins: seq<Join>, aliases: Aliases, rootAlias: string, correlated: bool, entity: nat, pivot: nat)
    : (Aliases, seq<Link>)
  {
    if joins == [] then (aliases, [])
    else
      var j, target := joins[0], TargetAlias(rootAlias, correlated, entity);
      var known := if j.target in aliases then aliases else aliases[j.target := target];
      var (all, more) := MeantJoins(joins[1..], known, rootAlias, correlated, entity + 1,
                                    if j.pivot.Some? then pivot + 1 else pivot);
      (all, MeantJoin(j, if j.owner in aliases then aliases[j.owner] else "", target,
                      PivotAlias(rootAlias, correlated, pivot)) + more)
  }

  /** Every join begins at an entity that the query knows by then. */
  predicate KnownJoins(joins: seq<Join>, aliases: Aliases, rootAlias: string, correlated: bool, entity: nat) {
    joins == [] ||
      var j := joins[0];
      && j.owner in aliases
      && KnownJoins(joins[1..],
                    if j.target in aliases then aliases
                    else aliases[j.target := TargetAlias(rootAlias, correlated, entity)],
                    rootAlias, correlated, entity + 1)
  }

  function MeantCteJoins(joins: seq<CteJoin>, aliases: Aliases): seq<Link> {
    if joins == [] then []
    else
      var j := joins[0];
      [Link(j.isLeft, j.cte, None, MeantColumn(j.ownerColumn, aliases), Qualified(j.cte, j.cteColumn))]
      + MeantCteJoins(joins[1..], aliases)
  }

  predicate KnownCteJoins(joins: seq<CteJoin>, aliases: Aliases) {
    forall i | 0 <= i < |joins| :: joins[i].ownerColumn.owner in aliases
  }

  function SameColumns(a: string, x: string, b: string, y: string): Test {
    Compared(Stored(Qualified(a, x)), Eq, Stored(Qualified(b, y)))
  }

  /** How child rows belong to an outer row. */
  function MeantCorrelation(c: Correlation, child: string, outer: string): seq<Test> {
    match c
    case Direct(childColumn, outerColumn) => [SameColumns(child, childColumn, outer, outerColumn)]
    case Through(pivot, pivotTarget, targetColumn, pivotRoot, localColumn) =>
      [LinkFound(pivot, child + "_pivot", SameColumns(child + "_pivot", pivotTarget, child, targetColumn),
                 SameColumns(child + "_pivot", pivotRoot, outer, localColumn))]
    case Morph(idColumn, localColumn, typeColumn, typeValue) =>
      [SameColumns(child, idColumn, outer, localColumn),
       Compared(Stored(Qualified(child, typeColumn)), Eq, Given(Text(typeValue)))]
  }

  function MeantOwn(extra: Option<Extra>, rootAlias: string): seq<Test> {
    match extra case None => [] case Some(x) => MeantCorrelation(x.relation, rootAlias, x.outerAlias)
  }

  /** One test in parentheses, or two. */
  function InGroup(tests: seq<Test>): Test
    requires |tests| == 1 || |tests| == 2
  {
    if |tests| == 1 then Grouped(tests[0]) else Joint(true, tests[0], tests[1])
  }

  function MeantFilter(f: Filter, rootAlias: string): Test
    decreases f, 1
  {
    Grouped(Found(MeantSelect(f.child, rootAlias + "_rel", Some(Extra(f.relation, rootAlias))), f.negated))
  }

  function MeantFilters(fs: seq<Filter>, rootAlias: string): (ms: seq<Test>)
    ensures |ms| == |fs|
    decreases fs, 2
  {
    if fs == [] then [] else [MeantFilter(fs[0], rootAlias)] + MeantFilters(fs[1..], rootAlias)
  }

  /** What relation filters and the correlation with an outer query ask for. */
  function MeantExtra(filters: Filters, extra: Option<Extra>, rootAlias: string): seq<Test>
    decreases filters, 3
  {
    match filters
    case Plain => MeantOwn(extra, rootAlias)
    case Filtered(fs) =>
      MeantFilters(fs, rootAlias) + if extra.None? then [] else [InGroup(MeantOwn(extra, rootAlias))]
  }

  function MeantRestriction(q: Select, extra: Option<Extra>, rootAlias: string, aliases: Aliases): Restriction
    decreases q, 1
  {
    var tests := MeantExtra(q.filters, extra, rootAlias);
    match q.condition
    case Always => if tests == [] then Unrestricted else OnlyIf(tests)
    case Where(e) => if tests == [] then OnlyIf([MeantExpr(e, aliases)]) else AlsoIf(MeantExpr(e, aliases), tests)
  }

  function MeantOrigin(q: Select, rootAlias: string): Origin
    decreases q, 1
  {
    match q.source
    case From(name) => Named(name, if rootAlias == "" then None else Some(rootAlias))
    case Derived(alias, query) => Inner(MeantSelect(query, "", None), if rootAlias == "" then alias else rootAlias)
  }

  function MeantHaving(q: Select, aliases: Aliases): GroupTest
    decreases q, 1
  {
    match q.having case Always => NoGroupTest case Where(e) => GroupTest(MeantExpr(e, aliases))
  }

  function MeantCte(c: Cte): Common
    decreases c, 1
  {
    Common(c.name, c.columns, MeantSelect(c.query, "", None))
  }

  function MeantCtes(cs: seq<Cte>): (ms: seq<Common>)
    ensures |ms| == |cs|
    decreases cs, 2
  {
    if cs == [] then [] else [MeantCte(cs[0])] + MeantCtes(cs[1..])
  }

  function MeantOperation(o: SetOperation): Further
    decreases o, 1
  {
    Further(o.op, MeantSelect(o.query, "", None))
  }

  function MeantOperations(os: seq<SetOperation>): (ms: seq<Further>)
    ensures |ms| == |os|
    decreases os, 2
  {
    if os == [] then [] else [MeantOperation(os[0])] + MeantOperations(os[1..])
  }

  // ----- the query

  function MeantItems(q: Select, rootAlias: string, aliases: Aliases): seq<Item>
    decreases q, 1
  {
    if q.projections == [] then RootItems(q.columns, rootAlias) else MeantProjections(q.projections, aliases)
  }

  function QueryAlias(q: Select, override: string, extra: Option<Extra>): string {
    RootAlias(q, override, q.filters.Filtered? || extra.Some?)
  }

  /** The aliases of the query's entities. */
  function QueryAliases(q: Select, override: string, extra: Option<Extra>): Aliases {
    var rootAlias := QueryAlias(q, override, extra);
    MeantJoins(q.joins, map[q.root := rootAlias], rootAlias, override != "", 1, 0).0
  }

  function QueryLinks(q: Select, override: string, extra: Option<Extra>): seq<Link> {
    var rootAlias := QueryAlias(q, override, extra);
    MeantJoins(q.joins, map[q.root := rootAlias], rootAlias, override != "", 1, 0).1
    + MeantCteJoins(q.cteJoins, QueryAliases(q, override, extra))
  }

  /** The query without what belongs to the whole of its set operations. */
  function MeantCore(q: Select, override: string, extra: Option<Extra>): Statement
    decreases q, 2
  {
    var rootAlias, aliases := QueryAlias(q, override, extra), QueryAliases(q, override, extra);
    Statement(false, [], q.distinct, MeantItems(q, rootAlias, aliases), MeantOrigin(q, rootAlias),
              QueryLinks(q, override, extra), MeantRestriction(q, extra, rootAlias, aliases),
              MeantColumns(q.groupBy, aliases), MeantHaving(q, aliases), [], [], None, None)
  }

  function MeantSelect(q: Select, override: string, extra: Option<Extra>): Statement
    decreases q, 3
  {
    MeantCore(q, override, extra).(
      recursive := AnyRecursive(q.ctes), commons := MeantCtes(q.ctes), further := MeantOperations(q.setOperations),
      orderings := MeantOrder(q.orderBy, QueryAliases(q, override, extra)), limit := q.limit, offset := q.offset)
  }

  // ----- when there is a statement

  predicate SoundScalar(s: Scalar, aliases: Aliases)
    decreases s, 0
  {
    match s
    case Column(c) => c.owner in aliases
    case Constant(_) => true
    case Arithmetic(left, _, right) => SoundScalar(left, aliases) && SoundScalar(right, aliases)
    case Aggregate(_, column, _) => column.Some? ==> column.value.owner in aliases
    case Function(name, args) => IsFunctionName(name) && SoundScalars(args, aliases)
    case Case(branches, otherwise) =>
      && branches != [] && SoundBranches(branches, aliases)
      && (match otherwise case NoElse => true case Else(e) => SoundScalar(e, aliases))
    case Window(name, args, partitionBy, windowOrder) =>
      && IsFunctionName(name) && SoundScalars(args, aliases)
      && KnownColumns(partitionBy, aliases) && KnownOrder(windowOrder, aliases)
  }

  predicate SoundScalars(args: seq<Scalar>, aliases: Aliases)
    decreases args, 1
  {
    args == [] || (SoundScalar(args[0], aliases) && SoundScalars(args[1..], aliases))
  }

  predicate SoundBranch(b: Branch, aliases: Aliases)
    decreases b, 1
  {
    SoundExpr(b.condition, aliases) && SoundScalar(b.result, aliases)
  }

  predicate SoundBranches(bs: seq<Branch>, aliases: Aliases)
    decreases bs, 2
  {
    bs == [] || (SoundBranch(bs[0], aliases) && SoundBranches(bs[1..], aliases))
  }

  predicate SoundExpr(e: Expr, aliases: Aliases)
    decreases e, 0
  {
    match e
    case Comparison(left, _, right) => SoundScalar(left, aliases) && SoundScalar(right, aliases)
    case NullCheck(operand, _) => SoundScalar(operand, aliases)
    case Like(operand, pattern, _) => SoundScalar(operand, aliases) && SoundScalar(pattern, aliases)
    case Between(operand, lower, upper, _) =>
      SoundScalar(operand, aliases) && SoundScalar(lower, aliases) && SoundScalar(upper, aliases)
    case InValues(operand, values, _) => values == [] || SoundScalar(operand, aliases)
    case InSubquery(operand, query, _) => Arity(query) == 1 && SoundScalar(operand, aliases) && Sound(query, "", None)
    case Exists(query, _) => Sound(query, "", None)
    case Logical(_, first, second) => SoundExpr(first, aliases) && SoundExpr(second, aliases)
    case Not(inner) => SoundExpr(inner, aliases)
  }

  predicate SoundCondition(c: Condition, aliases: Aliases)
    decreases c, 1
  {
    match c case Always => true case Where(e) => SoundExpr(e, aliases)
  }

  predicate SoundProjection(p: Projection, aliases: Aliases)
    decreases p, 1
  {
    SoundScalar(p.expression, aliases)
  }

  predicate SoundProjections(ps: seq<Projection>, aliases: Aliases)
    decreases ps, 2
  {
    ps == [] || (SoundProjection(ps[0], aliases) && SoundProjections(ps[1..], aliases))
  }

  predicate SoundFilters(filters: Filters, rootAlias: string)
    decreases filters, 3
  {
    match filters case Plain => true case Filtered(fs) => SoundFilterList(fs, rootAlias)
  }

  predicate SoundFilter(f: Filter, rootAlias: string)
    decreases f, 1
  {
    Sound(f.child, rootAlias + "_rel", Some(Extra(f.relation, rootAlias)))
  }

  predicate SoundFilterList(fs: seq<Filter>, rootAlias: string)
    decreases fs, 2
  {
    fs == [] || (SoundFilter(fs[0], rootAlias) && SoundFilterList(fs[1..], rootAlias))
  }

  predicate SoundCte(c: Cte)
    decreases c, 1
  {
    Sound(c.query, "", None)
  }

  predicate SoundCtes(cs: seq<Cte>)
    decreases cs, 2
  {
    cs == [] || (SoundCte(cs[0]) && SoundCtes(cs[1..]))
  }

  predicate SoundOperation(o: SetOperation)
    decreases o, 1
  {
    Sound(o.query, "", None)
  }

  predicate SoundOperations(os: seq<SetOperation>)
    decreases os, 2
  {
    os == [] || (SoundOperation(os[0]) && SoundOperations(os[1..]))
  }

  predicate SoundOrigin(s: Source)
    decreases s, 1
  {
    match s case From(_) => true case Derived(_, query) => Sound(query, "", None)
  }

  /** Every column's entity is known where it is used, functions have names, CASE has a branch, and a query in IN
      has one column. */
  predicate Sound(q: Select, override: string, extra: Option<Extra>)
    decreases q, 3
  {
    var rootAlias, aliases := QueryAlias(q, override, extra), QueryAliases(q, override, extra);
    && KnownJoins(q.joins, map[q.root := rootAlias], rootAlias, override != "", 1)
    && SoundCtes(q.ctes) && SoundProjections(q.projections, aliases) && SoundOrigin(q.source)
    && KnownCteJoins(q.cteJoins, aliases) && SoundCondition(q.condition, aliases) && SoundFilters(q.filters, rootAlias)
    && KnownColumns(q.groupBy, aliases) && SoundCondition(q.having, aliases) && SoundOperations(q.setOperations)
    && KnownOrder(q.orderBy, aliases)
  }

  // ----- values

  function ScalarValues(s: Scalar): seq<Value>
    decreases s, 0
  {
    match s
    case Column(_) => []
    case Constant(v) => [v]
    case Arithmetic(left, _, right) => ScalarValues(left) + ScalarValues(right)
    case Aggregate(_, _, _) => []
    case Function(_, args) => ScalarsValues(args)
    case Case(branches, otherwise) =>
      BranchesValues(branches) + (match otherwise case NoElse => [] case Else(e) => ScalarValues(e))
    case Window(_, args, _, _) => ScalarsValues(args)
  }

  function ScalarsValues(args: seq<Scalar>): seq<Value>
    decreases args, 1
  {
    if args == [] then [] else ScalarValues(args[0]) + ScalarsValues(args[1..])
  }

  function BranchValues(b: Branch): seq<Value>
    decreases b, 1
  {
    ExprValues(b.condition) + ScalarValues(b.result)
  }

  function BranchesValues(bs: seq<Branch>): seq<Value>
    decreases bs, 2
  {
    if bs == [] then [] else BranchValues(bs[0]) + BranchesValues(bs[1..])
  }

  function ExprValues(e: Expr): seq<Value>
    decreases e, 0
  {
    match e
    case Comparison(left, _, right) => ScalarValues(left) + ScalarValues(right)
    case NullCheck(operand, _) => ScalarValues(operand)
    case Like(operand, pattern, _) => ScalarValues(operand) + ScalarValues(pattern)
    case Between(operand, lower, upper, _) => ScalarValues(operand) + ScalarValues(lower) + ScalarValues(upper)
    case InValues(operand, values, _) => if values == [] then [] else ScalarValues(operand) + values
    case InSubquery(operand, query, _) => ScalarValues(operand) + SelectValues(query, None)
    case Exists(query, _) => SelectValues(query, None)
    case Logical(_, first, second) => ExprValues(first) + ExprValues(second)
    case Not(inner) => ExprValues(inner)
  }

  function ConditionValues(c: Condition): seq<Value>
    decreases c, 1
  {
    match c case Always => [] case Where(e) => ExprValues(e)
  }

  function ProjectionValues(p: Projection): seq<Value>
    decreases p, 1
  {
    ScalarValues(p.expression)
  }

  function ProjectionsValues(ps: seq<Projection>): seq<Value>
    decreases ps, 2
  {
    if ps == [] then [] else ProjectionValues(ps[0]) + ProjectionsValues(ps[1..])
  }

  function FiltersValues(filters: Filters): seq<Value>
    decreases filters, 3
  {
    match filters case Plain => [] case Filtered(fs) => FilterListValues(fs)
  }

  function FilterValues(f: Filter): seq<Value>
    decreases f, 1
  {
    SelectValues(f.child, Some(f.relation))
  }

  function FilterListValues(fs: seq<Filter>): seq<Value>
    decreases fs, 2
  {
    if fs == [] then [] else FilterValues(fs[0]) + FilterListValues(fs[1..])
  }

  /** A morph relation compares its type column. */
  function RelationValues(relation: Option<Correlation>): seq<Value> {
    match relation case Some(Morph(_, _, _, typeValue)) => [Text(typeValue)] case _ => []
  }

  function CteValues(c: Cte): seq<Value>
    decreases c, 1
  {
    SelectValues(c.query, None)
  }

  function CtesValues(cs: seq<Cte>): seq<Value>
    decreases cs, 2
  {
    if cs == [] then [] else CteValues(cs[0]) + CtesValues(cs[1..])
  }

  function OperationValues(o: SetOperation): seq<Value>
    decreases o, 1
  {
    SelectValues(o.query, None)
  }

  function OperationsValues(os: seq<SetOperation>): seq<Value>
    decreases os, 2
  {
    if os == [] then [] else OperationValues(os[0]) + OperationsValues(os[1..])
  }

  function OriginValues(s: Source): seq<Value>
    decreases s, 1
  {
    match s case From(_) => [] case Derived(_, query) => SelectValues(query, None)
  }

  /** The values of a query from left to right: common table expressions, projections, source, condition, relation
      filters, the correlation with an outer query, HAVING, and the other operands of set operations. */
  function SelectValues(q: Select, relation: Option<Correlation>): seq<Value>
    decreases q, 3
  {
    CtesValues(q.ctes) + ProjectionsValues(q.projections) + OriginValues(q.source) + ConditionValues(q.condition)
    + FiltersValues(q.filters) + RelationValues(relation) + ConditionValues(q.having)
    + OperationsValues(q.setOperations)
  }
}
