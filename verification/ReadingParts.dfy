/** The parts of a query that hold no other query, read word by word. */
module ReadingParts {
  import opened Wrappers
  import opened Values
  import opened Tokens
  import opened SqlWords
  import opened Queries
  import opened SqlReader
  import opened QueryMeaning
  import opened QuerySoundness
  import opened ReaderSteps

  // ----- names and columns

  lemma ReadsName(id: string, rest: Sql)
    ensures ReadName([Name(id)] + rest) == Read(id, rest)
  {
    assert ([Name(id)] + rest)[1..] == rest;
  }

  lemma ReadsQualified(alias: string, column: string, rest: Sql)
    ensures ReadColumn(QualifiedColumn(alias, column) + rest) == Read(Qualified(alias, column), rest)
  {
    var t := QualifiedColumn(alias, column) + rest;
    Around3([Name(alias)], W(Key.Dot), [Name(column)], rest);
    ReadsName(alias, W(Key.Dot) + ([Name(column)] + rest));
    Starting(Key.Dot, [Name(column)] + rest);
    ReadsName(column, rest);
  }

  lemma ReadsColumn(c: ColumnRef, aliases: Aliases, rest: Sql)
    requires c.owner in aliases && !Starts(rest, Key.Dot)
    ensures ReadColumn(ColumnSql(c, aliases).value + rest) == Read(MeantColumn(c, aliases), rest)
    ensures ReadTerm(ColumnSql(c, aliases).value + rest) == Read(Stored(MeantColumn(c, aliases)), rest)
  {
    if aliases[c.owner] == "" {
      ReadsName(c.column, rest);
    } else {
      ReadsQualified(aliases[c.owner], c.column, rest);
    }
    var t := ColumnSql(c, aliases).value + rest;
    assert t[0].Name?;
  }

  lemma ReadsQualifiedTerm(alias: string, column: string, rest: Sql)
    ensures ReadTerm(QualifiedColumn(alias, column) + rest) == Read(Stored(Qualified(alias, column)), rest)
  {
    ReadsQualified(alias, column, rest);
    assert (QualifiedColumn(alias, column) + rest)[0] == Name(alias);
  }

  lemma {:induction false} ReadsColumns(cs: seq<ColumnRef>, aliases: Aliases, rest: Sql)
    requires cs != [] && KnownColumns(cs, aliases) && EndsColumns(rest)
    ensures ColumnList(cs, aliases, true).Some?
    ensures ReadColumns(ColumnList(cs, aliases, true).value + rest) == Read(MeantColumns(cs, aliases), rest)
  {
    hide ColumnSql, ReadColumn, MeantColumn, Separator;
    ColumnsExist(cs, aliases, true);
    ColumnsExist(cs[1..], aliases, false);
    ColumnsExist(cs[1..], aliases, true);
    var x, y := ColumnSql(cs[0], aliases).value, ColumnList(cs[1..], aliases, false).value;
    OfList(Key.Comma, x, y, rest);
    if cs[1..] == [] {
      Nothing(rest);
      assert MeantColumns(cs, aliases) == [MeantColumn(cs[0], aliases)];
      ReadsColumn(cs[0], aliases, rest);
    } else {
      var more := cs[1..];
      OfList(Key.Comma, ColumnSql(more[0], aliases).value, ColumnList(more[1..], aliases, false).value, rest);
      Starting(Key.Comma, ColumnList(more, aliases, true).value + rest);
      ReadsColumn(cs[0], aliases, y + rest);
      ReadsColumns(more, aliases, rest);
    }
  }

  lemma {:induction false} ReadsOrder(os: seq<OrderBy>, aliases: Aliases, rest: Sql)
    requires os != [] && KnownOrder(os, aliases) && !Starts(rest, Key.Comma)
    ensures OrderList(os, aliases, true).Some?
    ensures ReadOrderings(OrderList(os, aliases, true).value + rest) == Read(MeantOrder(os, aliases), rest)
  {
    hide ColumnSql, ReadColumn, MeantColumn, Separator;
    OrderExists(os, aliases, true);
    OrderExists(os[1..], aliases, false);
    OrderExists(os[1..], aliases, true);
    var x, y := ColumnSql(os[0].column, aliases).value, OrderList(os[1..], aliases, false).value;
    var d := Key.Direction(os[0].ascending);
    OfOrder(x, d, y, rest);
    Starting(d, y + rest);
    ReadsColumn(os[0].column, aliases, W(d) + (y + rest));
    if os[1..] == [] {
      Nothing(rest);
      assert MeantOrder(os, aliases) == [Ordering(MeantColumn(os[0].column, aliases), os[0].ascending)];
    } else {
      var more := os[1..];
      OfOrder(ColumnSql(more[0].column, aliases).value, Key.Direction(more[0].ascending),
              OrderList(more[1..], aliases, false).value, rest);
      Starting(Key.Comma, OrderList(more, aliases, true).value + rest);
      ReadsOrder(more, aliases, rest);
    }
  }

  lemma OfOrder(x: Sql, d: Key, y: Sql, rest: Sql)
    ensures (Separator(true, Key.Comma) + x + W(d) + y + []) + rest == x + (W(d) + (y + rest))
    ensures (Separator(false, Key.Comma) + x + W(d) + y + []) + rest == W(Key.Comma) + (x + (W(d) + (y + rest)))
  {
    Pair5(Separator(true, Key.Comma), x, W(d), y, [], rest);
    Pair5(Separator(false, Key.Comma), x, W(d), y, [], rest);
    Nothing(x + (W(d) + (y + rest)));
    Nothing(rest);
  }

  lemma {:induction false} ReadsNames(names: seq<string>, rest: Sql)
    requires names != [] && !Starts(rest, Key.Comma)
    ensures ReadNames(NameList(names, true) + rest) == Read(names, rest)
  {
    hide ReadName, Separator;
    var y := NameList(names[1..], false);
    OfNames(names[0], y, rest);
    ReadsName(names[0], y + rest);
    if names[1..] == [] {
      Nothing(rest);
      assert names == [names[0]];
    } else {
      var more := names[1..];
      OfNames(more[0], NameList(more[1..], false), rest);
      Starting(Key.Comma, NameList(more, true) + rest);
      ReadsNames(more, rest);
      assert names == [names[0]] + more;
    }
  }

  lemma OfNames(id: string, y: Sql, rest: Sql)
    ensures (Separator(true, Key.Comma) + [Name(id)] + y) + rest == [Name(id)] + (y + rest)
    ensures (Separator(false, Key.Comma) + [Name(id)] + y) + rest == W(Key.Comma) + ([Name(id)] + (y + rest))
  {
    Around3(Separator(true, Key.Comma), [Name(id)], y, rest);
    Around3(Separator(false, Key.Comma), [Name(id)], y, rest);
    Nothing([Name(id)] + (y + rest));
  }

  lemma {:induction false} ReadsValues(vs: seq<Value>, rest: Sql)
    requires vs != [] && !Starts(rest, Key.Comma)
    ensures ReadValues(LiteralList(vs, true) + rest) == Read(vs, rest)
  {
    hide Separator;
    var y := LiteralList(vs[1..], false);
    OfValues(vs[0], y, rest);
    assert ([Literal(vs[0])] + (y + rest))[1..] == y + rest;
    if vs[1..] == [] {
      Nothing(rest);
      assert vs == [vs[0]];
    } else {
      var more := vs[1..];
      OfValues(more[0], LiteralList(more[1..], false), rest);
      Starting(Key.Comma, LiteralList(more, true) + rest);
      ReadsValues(more, rest);
      assert vs == [vs[0]] + more;
    }
  }

  lemma OfValues(v: Value, y: Sql, rest: Sql)
    ensures (Separator(true, Key.Comma) + [Literal(v)] + y) + rest == [Literal(v)] + (y + rest)
    ensures (Separator(false, Key.Comma) + [Literal(v)] + y) + rest == W(Key.Comma) + ([Literal(v)] + (y + rest))
  {
    Around3(Separator(true, Key.Comma), [Literal(v)], y, rest);
    Around3(Separator(false, Key.Comma), [Literal(v)], y, rest);
    Nothing([Literal(v)] + (y + rest));
  }

  // ----- terms

  lemma ReadsGiven(v: Value, rest: Sql)
    ensures ReadTerm([Literal(v)] + rest) == Read(Given(v), rest)
  {
    assert ([Literal(v)] + rest)[1..] == rest;
  }

  /** DISTINCT, or nothing. */
  function DistinctText(distinct: bool): Sql { if distinct then W(Key.Distinctly) else [] }

  lemma ReadsAggregate(s: Scalar, aliases: Aliases, rest: Sql)
    requires s.Aggregate? && SoundScalar(s, aliases)
    ensures InlineScalar(s, aliases).Some?
    ensures ReadTerm(InlineScalar(s, aliases).value + rest) == Read(MeantScalar(s, aliases), rest)
  {
    hide ReadTerm, ReadCall, ColumnSql, MeantColumn, AggregateName;
    ScalarExists(s, aliases);
    var Aggregate(kind, column, distinct) := s;
    var name := AggregateName(kind);
    var x := match column case Some(c) => ColumnSql(c, aliases).value case None => W(Key.Star);
    var v := W(Key.Close) + rest;
    AggregateText(name, distinct, x, rest);
    Starting(Key.Call(name), DistinctText(distinct) + (x + v));
    Starting(Key.Close, rest);
    CallRead(W(Key.Call(name)) + (DistinctText(distinct) + (x + v)), name);
    if column.None? {
      Starting(Key.Star, v);
      ReadsStar(name, distinct, x + v);
    } else {
      ReadsColumn(column.value, aliases, v);
      TermBegins(x + v);
      ReadsOneArgument(name, distinct, x + v, Stored(MeantColumn(column.value, aliases)), v);
    }
  }

  lemma AggregateText(name: string, distinct: bool, x: Sql, rest: Sql)
    ensures (W(Key.Call(name)) + (if distinct then W(Key.Distinctly) else []) + x + W(Key.Close)) + rest
         == W(Key.Call(name)) + (DistinctText(distinct) + (x + (W(Key.Close) + rest)))
  {
    Pair5(W(Key.Call(name)), DistinctText(distinct), x, W(Key.Close), [], rest);
    Nothing(rest);
    Nothing(W(Key.Call(name)) + DistinctText(distinct) + x + W(Key.Close));
  }

  lemma ReadsStar(name: string, distinct: bool, u: Sql)
    requires Starts(u, Key.Star) && Starts(u[1..], Key.Close)
    ensures ReadCall(name, DistinctText(distinct) + u) == Read(Called(name, distinct, true, []), u[1..][1..])
  {
    Nothing(u);
    Starting(Key.Distinctly, u);
  }

  lemma ReadsOneArgument(name: string, distinct: bool, u: Sql, x: Term, v: Sql)
    requires ReadTerm(u) == Read(x, v) && BeginsTerm(u) && Starts(v, Key.Close)
    ensures ReadCall(name, DistinctText(distinct) + u) == Read(Called(name, distinct, false, [x]), v[1..])
  {
    hide ReadTerm;
    Nothing(u);
    Starting(Key.Distinctly, u);
    StepTerms(u, x, v);
    StepArgs(u);
  }

  lemma ReadsOver(name: string, args: seq<Term>, partitionBy: seq<ColumnRef>, windowOrder: seq<OrderBy>,
                  aliases: Aliases,
                  rest: Sql)
    requires KnownColumns(partitionBy, aliases) && KnownOrder(windowOrder, aliases)
    requires forall i | 0 <= i < |args| :: FlatTerm(args[i])
    ensures WindowTail(partitionBy, windowOrder, aliases).Some?
    ensures ReadOver(name, args, WindowTail(partitionBy, windowOrder, aliases).value + rest)
         == Read(Windowed(name, args, MeantColumns(partitionBy, aliases), MeantOrder(windowOrder, aliases)), rest)
  {
    hide FlatTerm, ReadOver, ColumnList, OrderList, MeantColumns, MeantOrder, KnownColumns, KnownOrder, WindowTail;
    WindowText(partitionBy, windowOrder, aliases, rest);
    var cols, orders := ColumnList(partitionBy, aliases, true).value, OrderList(windowOrder, aliases, true).value;
    var z := W(Key.Close) + rest;
    var p := if partitionBy == [] then [] else W(Key.PartitionBy);
    var o := (if partitionBy == [] || windowOrder == [] then [] else W(Key.Space))
             + (if windowOrder == [] then [] else W(Key.OrderInside));
    var u := o + (orders + z);
    Starting(Key.Close, rest);
    OrdersAhead(partitionBy == [], windowOrder, aliases, z);
    PartitionAhead(partitionBy, aliases, u);
    OverReads(name, args, p + (cols + u), MeantColumns(partitionBy, aliases), u, MeantOrder(windowOrder, aliases), z);
  }

  lemma WindowText(partitionBy: seq<ColumnRef>, windowOrder: seq<OrderBy>, aliases: Aliases, rest: Sql)
    requires KnownColumns(partitionBy, aliases) && KnownOrder(windowOrder, aliases)
    ensures WindowTail(partitionBy, windowOrder, aliases).Some?
    ensures ColumnList(partitionBy, aliases, true).Some? && OrderList(windowOrder, aliases, true).Some?
    ensures WindowTail(partitionBy, windowOrder, aliases).value + rest
         == (if partitionBy == [] then [] else W(Key.PartitionBy))
            + (ColumnList(partitionBy, aliases, true).value
               + ((if partitionBy == [] || windowOrder == [] then [] else W(Key.Space))
                  + (if windowOrder == [] then [] else W(Key.OrderInside))
                  + (OrderList(windowOrder, aliases, true).value + (W(Key.Close) + rest))))
  {
    hide ColumnList, OrderList, KnownColumns, KnownOrder;
    ColumnsExist(partitionBy, aliases, true);
    OrderExists(windowOrder, aliases, true);
    Pair5(if partitionBy == [] then [] else W(Key.PartitionBy), ColumnList(partitionBy, aliases, true).value,
          (if partitionBy == [] || windowOrder == [] then [] else W(Key.Space))
          + (if windowOrder == [] then [] else W(Key.OrderInside)),
          OrderList(windowOrder, aliases, true).value, W(Key.Close), rest);
  }

  /** The partition, if there is one, and what stands behind it. */
  lemma PartitionAhead(partitionBy: seq<ColumnRef>, aliases: Aliases, u: Sql)
    requires KnownColumns(partitionBy, aliases) && EndsColumns(u) && !Starts(u, Key.PartitionBy)
    ensures ColumnList(partitionBy, aliases, true).Some?
    ensures var t := (if partitionBy == [] then [] else W(Key.PartitionBy))
                     + (ColumnList(partitionBy, aliases, true).value + u);
            (if Starts(t, Key.PartitionBy) then ReadColumns(t[1..]) else Read([], t))
            == Read(MeantColumns(partitionBy, aliases), u)
  {
    hide ReadColumns;
    ColumnsExist(partitionBy, aliases, true);
    if partitionBy == [] {
      Nothing(u);
    } else {
      ReadsColumns(partitionBy, aliases, u);
      Starting(Key.PartitionBy, ColumnList(partitionBy, aliases, true).value + u);
    }
  }

  /** The order, if there is one, behind a space if there is a partition. */
  lemma OrdersAhead(first: bool, windowOrder: seq<OrderBy>, aliases: Aliases, z: Sql)
    requires KnownOrder(windowOrder, aliases) && Starts(z, Key.Close)
    ensures OrderList(windowOrder, aliases, true).Some?
    ensures var o := (if first || windowOrder == [] then [] else W(Key.Space))
                     + (if windowOrder == [] then [] else W(Key.OrderInside));
            var u := o + (OrderList(windowOrder, aliases, true).value + z);
            var v := if !first && Starts(u, Key.Space) then u[1..] else u;
            && EndsColumns(u) && !Starts(u, Key.PartitionBy) && (first ==> !Starts(u, Key.Space))
            && (if Starts(v, Key.OrderInside) then ReadOrderings(v[1..]) else Read([], v))
            == Read(MeantOrder(windowOrder, aliases), z)
  {
    hide ReadOrderings;
    OrderExists(windowOrder, aliases, true);
    var orders := OrderList(windowOrder, aliases, true).value;
    if windowOrder == [] {
      Nothing(z);
      assert ([] + []) + ([] + z) == z;
    } else {
      ReadsOrder(windowOrder, aliases, z);
      Starting(Key.OrderInside, orders + z);
      Starting(Key.Space, W(Key.OrderInside) + (orders + z));
      assert ([] + W(Key.OrderInside)) + (orders + z) == W(Key.OrderInside) + (orders + z);
      assert (W(Key.Space) + W(Key.OrderInside)) + (orders + z) == W(Key.Space) + (W(Key.OrderInside) + (orders + z));
    }
  }

  // ----- tests

  lemma RangeText(x: Sql, negated: bool, l: Sql, h: Sql, rest: Sql)
    ensures ([] + x + W(Key.Between(negated)) + ([] + l + W(Key.Connect(true)) + h + []) + []) + rest
         == x + (W(Key.Between(negated)) + (l + (W(Key.Connect(true)) + (h + rest))))
  {
    Pair5([], x, W(Key.Between(negated)), [] + l + W(Key.Connect(true)) + h + [], [], rest);
    Nothing(rest);
    Pair5([], l, W(Key.Connect(true)), h, [], rest);
    Nothing(l + (W(Key.Connect(true)) + (h + rest)));
    Nothing(x + (W(Key.Between(negated)) + (l + (W(Key.Connect(true)) + (h + rest)))));
  }

  // ----- what is selected

  lemma AliasText(x: Sql, a: string, rest: Sql)
    ensures ([] + x + (W(Key.As) + [Name(a)])) + rest == x + (W(Key.As) + ([Name(a)] + rest))
  {
    Around3([], x, W(Key.As) + [Name(a)], rest);
    Around3([], W(Key.As), [Name(a)], rest);
    Nothing(W(Key.As) + [Name(a)]);
    Nothing(W(Key.As) + ([Name(a)] + rest));
    Nothing(x + (W(Key.As) + ([Name(a)] + rest)));
    assert [] + W(Key.As) + [Name(a)] == W(Key.As) + [Name(a)];
  }

  /** A column of the root entity, under its own name. */
  function RootColumn(column: string, alias: string): Sql {
    if alias != "" then QualifiedColumn(alias, column) + W(Key.As) + [Name(column)] else [Name(column)]
  }

  lemma ReadsRootColumn(column: string, alias: string, rest: Sql)
    requires !Starts(rest, Key.Dot) && !Starts(rest, Key.As)
    ensures ReadItem(RootColumn(column, alias) + rest) == Read(RootItems([column], alias)[0], rest)
    ensures RootItems([column], alias) == [RootItems([column], alias)[0]]
  {
    hide ReadTerm, ReadItem;
    if alias != "" {
      Around3(QualifiedColumn(alias, column), W(Key.As), [Name(column)], rest);
      var u := W(Key.As) + ([Name(column)] + rest);
      Starting(Key.As, [Name(column)] + rest);
      ReadsName(column, rest);
      ReadsQualifiedTerm(alias, column, u);
      StepItem(QualifiedColumn(alias, column) + u, Stored(Qualified(alias, column)), u);
    } else {
      ReadsBareTerm(column, rest);
      StepItem([Name(column)] + rest, Stored(Bare(column)), rest);
    }
  }

  lemma ReadsBareTerm(column: string, rest: Sql)
    requires !Starts(rest, Key.Dot)
    ensures ReadTerm([Name(column)] + rest) == Read(Stored(Bare(column)), rest)
  {
    ReadsName(column, rest);
    assert ([Name(column)] + rest)[0] == Name(column);
  }

  lemma {:induction false} ReadsRootColumns(columns: seq<string>, alias: string, rest: Sql)
    requires columns != [] && Starts(rest, Key.From)
    ensures ReadItems(RootColumns(columns, alias, true) + rest) == Read(RootItems(columns, alias), rest)
  {
    hide ReadItem, ReadItems, RootColumn, Separator;
    var more := columns[1..];
    var x, y := RootColumn(columns[0], alias), RootColumns(more, alias, false);
    RootText(columns, alias, rest);
    assert RootItems(columns, alias) == RootItems([columns[0]], alias) + RootItems(more, alias);
    if more == [] {
      Nothing(rest);
      ReadsRootColumn(columns[0], alias, rest);
      assert RootItems(columns, alias) == RootItems([columns[0]], alias);
      StepItems(x + rest, RootItems([columns[0]], alias)[0], rest);
    } else {
      RootText(more, alias, rest);
      Starting(Key.Comma, RootColumns(more, alias, true) + rest);
      ReadsRootColumn(columns[0], alias, y + rest);
      ReadsRootColumns(more, alias, rest);
      StepItems(x + (y + rest), RootItems([columns[0]], alias)[0], y + rest);
    }
  }

  lemma RootText(columns: seq<string>, alias: string, rest: Sql)
    requires columns != []
    ensures RootColumns(columns, alias, true) + rest
         == RootColumn(columns[0], alias) + (RootColumns(columns[1..], alias, false) + rest)
    ensures RootColumns(columns, alias, false) + rest
         == W(Key.Comma) + (RootColumn(columns[0], alias) + (RootColumns(columns[1..], alias, false) + rest))
  {
    hide RootColumns;
    var x, y := RootColumn(columns[0], alias), RootColumns(columns[1..], alias, false);
    RootIs(columns, alias, true);
    RootIs(columns, alias, false);
    Around3(Separator(true, Key.Comma), x, y, rest);
    Around3(Separator(false, Key.Comma), x, y, rest);
    Nothing(x + (y + rest));
  }

  lemma RootIs(columns: seq<string>, alias: string, first: bool)
    requires columns != []
    ensures RootColumns(columns, alias, first)
         == Separator(first, Key.Comma) + RootColumn(columns[0], alias) + RootColumns(columns[1..], alias, false)
  {
    hide Separator;
  }

  lemma ListReads(t: Sql, distinct: bool, v: Sql, items: seq<Item>, u: Sql)
    requires t == W(Key.Select) + (DistinctText(distinct) + v) && Starts(u, Key.From)
    requires if items == [] then v == u else BeginsTerm(v) && ReadItems(v) == Read(items, u)
    ensures ReadList(t) == Read((distinct, items), u[1..])
  {
    hide ReadItems;
    Starting(Key.Select, DistinctText(distinct) + v);
    Starting(Key.Distinctly, v);
    Nothing(v);
  }

  lemma NoRootColumns(alias: string)
    ensures RootColumns([], alias, true) == [] && RootItems([], alias) == []
  {}

  lemma ListText(distinct: bool, x: Sql, rest: Sql)
    ensures (W(Key.Select) + (if distinct then W(Key.Distinctly) else []) + x + W(Key.From)) + rest
         == W(Key.Select) + (DistinctText(distinct) + (x + (W(Key.From) + rest)))
  {
    Pair5(W(Key.Select), DistinctText(distinct), x, W(Key.From), [], rest);
    Nothing(rest);
    Nothing(W(Key.Select) + DistinctText(distinct) + x + W(Key.From));
  }

  // ----- where it comes from

  /** A name, and an alias if there is one. */
  function NamedText(name: string, alias: Option<string>): Sql {
    match alias case None => [Name(name)] case Some(a) => [Name(name)] + W(Key.As) + [Name(a)]
  }

  lemma ReadsNamed(name: string, alias: Option<string>, rest: Sql)
    requires alias.None? ==> !Starts(rest, Key.As)
    ensures ReadNamed(NamedText(name, alias) + rest) == Read((name, alias), rest)
    ensures !Starts(NamedText(name, alias) + rest, Key.Open)
  {
    match alias
    case None => ReadsName(name, rest);
    case Some(a) =>
      Around3([Name(name)], W(Key.As), [Name(a)], rest);
      ReadsName(name, W(Key.As) + ([Name(a)] + rest));
      Starting(Key.As, [Name(a)] + rest);
      ReadsName(a, rest);
  }

  lemma DerivedText(t: Sql, called: string, rest: Sql)
    ensures (W(Key.Open) + t + (W(Key.CloseAs) + [Name(called)])) + rest
         == W(Key.Open) + (t + (W(Key.CloseAs) + ([Name(called)] + rest)))
  {
    Around3(W(Key.Open), t, W(Key.CloseAs) + [Name(called)], rest);
    assert (W(Key.CloseAs) + [Name(called)]) + rest == W(Key.CloseAs) + ([Name(called)] + rest);
  }

  // ----- joins

  function LinkText(isLeft: bool, named: Sql, a: Sql, b: Sql): Sql {
    W(Key.JoinOn(isLeft)) + named + W(Key.On) + a + W(Key.Compare(Eq)) + b
  }

  lemma LinkIs(isLeft: bool, named: Sql, a: Sql, b: Sql, rest: Sql)
    ensures LinkText(isLeft, named, a, b) + rest
         == W(Key.JoinOn(isLeft)) + (named + (W(Key.On) + (a + (W(Key.Compare(Eq)) + (b + rest)))))
  {
    var v := W(Key.Compare(Eq)) + (b + rest);
    Around3(W(Key.JoinOn(isLeft)) + named + W(Key.On) + a, W(Key.Compare(Eq)), b, rest);
    Pair5(W(Key.JoinOn(isLeft)), named, W(Key.On), a, [], v);
    Nothing(v);
    Nothing(W(Key.JoinOn(isLeft)) + named + W(Key.On) + a);
  }

  /** `at` is a column, whose name is `x`, wherever it stands before an equals sign. */
  ghost predicate ReadsAs(a: Sql, x: ColumnName) {
    forall u :: ReadColumn(a + (W(Key.Compare(Eq)) + u)) == Read(x, W(Key.Compare(Eq)) + u)
  }

  lemma QualifiedReadsAs(alias: string, column: string)
    ensures ReadsAs(QualifiedColumn(alias, column), Qualified(alias, column))
  {
    forall u
      ensures ReadColumn(QualifiedColumn(alias, column) + (W(Key.Compare(Eq)) + u))
           == Read(Qualified(alias, column), W(Key.Compare(Eq)) + u)
    {
      ReadsQualified(alias, column, W(Key.Compare(Eq)) + u);
    }
  }

  lemma ColumnReadsAs(c: ColumnRef, aliases: Aliases)
    requires c.owner in aliases
    ensures ReadsAs(ColumnSql(c, aliases).value, MeantColumn(c, aliases))
  {
    forall u
      ensures ReadColumn(ColumnSql(c, aliases).value + (W(Key.Compare(Eq)) + u))
           == Read(MeantColumn(c, aliases), W(Key.Compare(Eq)) + u)
    {
      Starting(Key.Compare(Eq), u);
      ReadsColumn(c, aliases, W(Key.Compare(Eq)) + u);
    }
  }

  lemma ReadsLink(isLeft: bool, table: string, alias: Option<string>, a: Sql, x: ColumnName, b: string, y: string,
                  rest: Sql)
    requires ReadsAs(a, x)
    ensures ReadLink(LinkText(isLeft, NamedText(table, alias), a, QualifiedColumn(b, y)) + rest)
         == Read(Link(isLeft, table, alias, x, Qualified(b, y)), rest)
  {
    hide LinkText, ReadLink, ReadNamed, ReadColumn, NamedText, QualifiedColumn;
    var v := W(Key.Compare(Eq)) + (QualifiedColumn(b, y) + rest);
    var u := W(Key.On) + (a + v);
    LinkIs(isLeft, NamedText(table, alias), a, QualifiedColumn(b, y), rest);
    Starting(Key.JoinOn(isLeft), NamedText(table, alias) + u);
    Starting(Key.On, a + v);
    Starting(Key.Compare(Eq), QualifiedColumn(b, y) + rest);
    ReadsNamed(table, alias, u);
    ReadsQualified(b, y, rest);
    StepLink(W(Key.JoinOn(isLeft)) + (NamedText(table, alias) + u), isLeft, table, alias, u, x, v, Qualified(b, y),
             rest);
  }

  lemma PlainJoinIs(j: Join, owner: string, target: string, pivotAlias: string)
    requires j.pivot.None?
    ensures JoinSql(j, owner, target, pivotAlias)
         == LinkText(j.isLeft, NamedText(j.targetTable, Some(target)), QualifiedColumn(owner, j.ownerColumn),
                     QualifiedColumn(target, j.targetColumn))
  {
    hide QualifiedColumn;
  }

  lemma PivotJoinIs(j: Join, owner: string, target: string, pivotAlias: string)
    requires j.pivot.Some?
    ensures JoinSql(j, owner, target, pivotAlias)
         == LinkText(j.isLeft, NamedText(j.pivot.value.table, Some(pivotAlias)),
                     QualifiedColumn(pivotAlias, j.pivot.value.rootColumn), QualifiedColumn(owner, j.ownerColumn))
            + LinkText(j.isLeft, NamedText(j.targetTable, Some(target)), QualifiedColumn(target, j.targetColumn),
                       QualifiedColumn(pivotAlias, j.pivot.value.targetColumn))
  {
    hide QualifiedColumn;
  }

  /** The links of a join, and then those behind it. */
  lemma ReadsJoin(j: Join, owner: string, target: string, pivotAlias: string, rest: Sql)
    requires ReadLinks(rest).Read?
    ensures ReadLinks(JoinSql(j, owner, target, pivotAlias) + rest)
         == Read(MeantJoin(j, owner, target, pivotAlias) + ReadLinks(rest).x, ReadLinks(rest).rest)
  {
    hide JoinSql, LinkText, ReadLink, ReadLinks, ReadsAs, QualifiedColumn, NamedText;
    match j.pivot
    case None =>
      PlainJoinIs(j, owner, target, pivotAlias);
      QualifiedReadsAs(owner, j.ownerColumn);
      ReadsLink(j.isLeft, j.targetTable, Some(target), QualifiedColumn(owner, j.ownerColumn),
                Qualified(owner, j.ownerColumn), target, j.targetColumn, rest);
      StepLinks(JoinSql(j, owner, target, pivotAlias) + rest, MeantJoin(j, owner, target, pivotAlias)[0], rest);
    case Some(p) =>
      PivotJoinIs(j, owner, target, pivotAlias);
      QualifiedReadsAs(pivotAlias, p.rootColumn);
      QualifiedReadsAs(target, j.targetColumn);
      var first := LinkText(j.isLeft, NamedText(p.table, Some(pivotAlias)), QualifiedColumn(pivotAlias, p.rootColumn),
                            QualifiedColumn(owner, j.ownerColumn));
      var second := LinkText(j.isLeft, NamedText(j.targetTable, Some(target)), QualifiedColumn(target, j.targetColumn),
                             QualifiedColumn(pivotAlias, p.targetColumn));
      assert (first + second) + rest == first + (second + rest);
      ReadsLink(j.isLeft, j.targetTable, Some(target), QualifiedColumn(target, j.targetColumn),
                Qualified(target, j.targetColumn), pivotAlias, p.targetColumn, rest);
      ReadsLink(j.isLeft, p.table, Some(pivotAlias), QualifiedColumn(pivotAlias, p.rootColumn),
                Qualified(pivotAlias, p.rootColumn), owner, j.ownerColumn, second + rest);
      var links := MeantJoin(j, owner, target, pivotAlias);
      StepLinks(second + rest, links[1], rest);
      StepLinks(first + (second + rest), links[0], second + rest);
      assert [links[0]] + ([links[1]] + ReadLinks(rest).x) == links + ReadLinks(rest).x;
  }

  lemma {:induction false} ReadsJoins(joins: seq<Join>, aliases: Aliases, rootAlias: string, correlated: bool,
                                      entity: nat,
                                      pivot: nat, rest: Sql)
    requires KnownJoins(joins, aliases, rootAlias, correlated, entity) && ReadLinks(rest).Read?
    ensures Joined(joins, aliases, rootAlias, correlated, entity, pivot).Some?
    ensures ReadLinks(Joined(joins, aliases, rootAlias, correlated, entity, pivot).value.1 + rest)
         == Read(MeantJoins(joins, aliases, rootAlias, correlated, entity, pivot).1 + ReadLinks(rest).x,
                 ReadLinks(rest).rest)
  {
    hide JoinSql, MeantJoin, ReadLinks, TargetAlias, PivotAlias;
    JoinsExist(joins, aliases, rootAlias, correlated, entity, pivot);
    if joins == [] {
      Nothing(rest);
      assert [] + ReadLinks(rest).x == ReadLinks(rest).x;
    } else {
      var j, target := joins[0], TargetAlias(rootAlias, correlated, entity);
      var known := if j.target in aliases then aliases else aliases[j.target := target];
      var p := if j.pivot.Some? then pivot + 1 else pivot;
      ReadsJoins(joins[1..], known, rootAlias, correlated, entity + 1, p, rest);
      var y := Joined(joins[1..], known, rootAlias, correlated, entity + 1, p).value.1;
      var x := JoinSql(j, aliases[j.owner], target, PivotAlias(rootAlias, correlated, pivot));
      ReadsJoin(j, aliases[j.owner], target, PivotAlias(rootAlias, correlated, pivot), y + rest);
      assert (x + y) + rest == x + (y + rest);
      var a, b := MeantJoin(j, aliases[j.owner], target, PivotAlias(rootAlias, correlated, pivot)),
                  MeantJoins(joins[1..], known, rootAlias, correlated, entity + 1, p).1;
      assert (a + b) + ReadLinks(rest).x == a + (b + ReadLinks(rest).x);
    }
  }

  lemma {:induction false} ReadsCteJoins(joins: seq<CteJoin>, aliases: Aliases, rest: Sql)
    requires KnownCteJoins(joins, aliases) && Later(rest, 2)
    ensures CteJoinList(joins, aliases).Some?
    ensures ReadLinks(CteJoinList(joins, aliases).value + rest) == Read(MeantCteJoins(joins, aliases), rest)
  {
    hide ReadLink, ColumnSql, MeantColumn, LinkText, ReadsAs, QualifiedColumn;
    CteJoinsExist(joins, aliases);
    LaterIs(rest, 2);
    if joins == [] {
      Nothing(rest);
    } else {
      var j, more := joins[0], joins[1..];
      assert KnownCteJoins(more, aliases) by {
        assert forall i | 0 <= i < |more| :: more[i] == joins[i + 1];
      }
      ReadsCteJoins(more, aliases, rest);
      var y := CteJoinList(more, aliases).value;
      ColumnReadsAs(j.ownerColumn, aliases);
      CteJoinText(j, ColumnSql(j.ownerColumn, aliases).value, y, rest);
      ReadsLink(j.isLeft, j.cte, None, ColumnSql(j.ownerColumn, aliases).value, MeantColumn(j.ownerColumn, aliases),
                j.cte,
                j.cteColumn, y + rest);
      var text := LinkText(j.isLeft, NamedText(j.cte, None), ColumnSql(j.ownerColumn, aliases).value,
                           QualifiedColumn(j.cte, j.cteColumn));
      StepLinks(text + (y + rest), MeantCteJoins(joins, aliases)[0], y + rest);
    }
  }

  lemma CteJoinText(j: CteJoin, a: Sql, y: Sql, rest: Sql)
    ensures (Keyword(j.isLeft) + [Name(j.cte)] + W(Key.On) + a
             + (W(Key.Compare(Eq)) + QualifiedColumn(j.cte, j.cteColumn)) + y + []) + rest
         == LinkText(j.isLeft, NamedText(j.cte, None), a, QualifiedColumn(j.cte, j.cteColumn)) + (y + rest)
  {
    hide QualifiedColumn;
    var b := QualifiedColumn(j.cte, j.cteColumn);
    var link := LinkText(j.isLeft, NamedText(j.cte, None), a, b);
    assert Keyword(j.isLeft) + [Name(j.cte)] + W(Key.On) + a + (W(Key.Compare(Eq)) + b) == link;
    Around3(link, y, [], rest);
    Nothing(rest);
  }

  // ----- conditions

  lemma ReadsSame(a: string, x: string, b: string, y: string, rest: Sql)
    ensures ReadTest((QualifiedColumn(a, x) + W(Key.Compare(Eq)) + QualifiedColumn(b, y)) + rest)
         == Read(SameColumns(a, x, b, y), rest)
    ensures NoSum((QualifiedColumn(a, x) + W(Key.Compare(Eq)) + QualifiedColumn(b, y)) + rest)
  {
    hide ReadTerm, ReadTest, ReadAbout, NoSum, QualifiedColumn;
    var u := W(Key.Compare(Eq)) + (QualifiedColumn(b, y) + rest);
    Around3(QualifiedColumn(a, x), W(Key.Compare(Eq)), QualifiedColumn(b, y), rest);
    Starting(Key.Compare(Eq), QualifiedColumn(b, y) + rest);
    ReadsQualifiedTerm(a, x, u);
    ReadsQualifiedTerm(b, y, rest);
    StepCompared(Stored(Qualified(a, x)), u, Eq, Stored(Qualified(b, y)), rest);
    AboutReads(QualifiedColumn(a, x) + u, Stored(Qualified(a, x)), u, SameColumns(a, x, b, y), rest);
  }

  lemma ReadsType(a: string, x: string, v: Value, rest: Sql)
    ensures ReadTest((QualifiedColumn(a, x) + W(Key.Compare(Eq)) + [Literal(v)]) + rest)
         == Read(Compared(Stored(Qualified(a, x)), Eq, Given(v)), rest)
  {
    hide ReadTerm, ReadTest, ReadAbout, NoSum, QualifiedColumn;
    var u := W(Key.Compare(Eq)) + ([Literal(v)] + rest);
    Around3(QualifiedColumn(a, x), W(Key.Compare(Eq)), [Literal(v)], rest);
    Starting(Key.Compare(Eq), [Literal(v)] + rest);
    ReadsQualifiedTerm(a, x, u);
    ReadsGiven(v, rest);
    StepCompared(Stored(Qualified(a, x)), u, Eq, Given(v), rest);
    AboutReads(QualifiedColumn(a, x) + u, Stored(Qualified(a, x)), u, Compared(Stored(Qualified(a, x)), Eq, Given(v)),
               rest);
  }

  /** How the conditions of a relation stand in a text: alone, or the two of a morph with AND between them. */
  function SameText(a: string, x: string, b: string, y: string): Sql {
    QualifiedColumn(a, x) + W(Key.Compare(Eq)) + QualifiedColumn(b, y)
  }

  function TypeText(a: string, x: string, v: Value): Sql { QualifiedColumn(a, x) + W(Key.Compare(Eq)) + [Literal(v)] }

  function ThroughText(pivot: string, alias: string, first: Sql, second: Sql): Sql {
    W(Key.ExistsRow) + NamedText(pivot, Some(alias)) + W(Key.Where) + first + W(Key.Connect(true)) + second
    + W(Key.Close)
  }

  lemma DirectIs(c: Correlation, child: string, outer: string)
    requires c.Direct?
    ensures CorrelationSql(c, child, outer) == SameText(child, c.childColumn, outer, c.outerColumn)
  {}

  lemma ThroughIs(c: Correlation, child: string, outer: string)
    requires c.Through?
    ensures CorrelationSql(c, child, outer)
         == ThroughText(c.pivot, child + "_pivot", SameText(child + "_pivot", c.pivotTarget, child, c.targetColumn),
                        SameText(child + "_pivot", c.pivotRoot, outer, c.localColumn))
  {
    hide QualifiedColumn;
  }

  lemma MorphIs(c: Correlation, child: string, outer: string)
    requires c.Morph?
    ensures CorrelationSql(c, child, outer)
         == SameText(child, c.idColumn, outer, c.localColumn) + W(Key.Connect(true))
            + TypeText(child, c.typeColumn, Text(c.typeValue))
  {
    hide QualifiedColumn;
  }

  lemma ThroughLayout(pivot: string, alias: string, first: Sql, second: Sql, rest: Sql)
    ensures ThroughText(pivot, alias, first, second) + rest
         == W(Key.ExistsRow) + (NamedText(pivot, Some(alias))
            + (W(Key.Where) + (first + (W(Key.Connect(true)) + (second + (W(Key.Close) + rest))))))
  {
    hide NamedText;
    var v := W(Key.Connect(true)) + (second + (W(Key.Close) + rest));
    var head := W(Key.ExistsRow) + NamedText(pivot, Some(alias)) + W(Key.Where) + first;
    Pair5(head, W(Key.Connect(true)), second, W(Key.Close), [], rest);
    Nothing(rest);
    Nothing(head + W(Key.Connect(true)) + second + W(Key.Close));
    Pair5(W(Key.ExistsRow), NamedText(pivot, Some(alias)), W(Key.Where), first, [], v);
    Nothing(v);
    Nothing(head);
  }

  lemma ReadsThrough(c: Correlation, child: string, outer: string, rest: Sql)
    requires c.Through?
    ensures ReadTest(CorrelationSql(c, child, outer) + rest) == Read(MeantCorrelation(c, child, outer)[0], rest)
    ensures NoSum(CorrelationSql(c, child, outer) + rest)
  {
    hide ReadTest, NoSum, ReadNamed, SameText, ThroughText, NamedText, CorrelationSql;
    var alias := child + "_pivot";
    var first := SameText(alias, c.pivotTarget, child, c.targetColumn);
    var second := SameText(alias, c.pivotRoot, outer, c.localColumn);
    ThroughIs(c, child, outer);
    ThroughLayout(c.pivot, alias, first, second, rest);
    var w := W(Key.Close) + rest;
    var v := W(Key.Connect(true)) + (second + w);
    var u := W(Key.Where) + (first + v);
    Starting(Key.ExistsRow, NamedText(c.pivot, Some(alias)) + u);
    Starting(Key.Where, first + v);
    Starting(Key.Connect(true), second + w);
    Starting(Key.Close, rest);
    ReadsNamed(c.pivot, Some(alias), u);
    ReadsSameText(alias, c.pivotTarget, child, c.targetColumn, v);
    ReadsSameText(alias, c.pivotRoot, outer, c.localColumn, w);
    StepLinkFound(W(Key.ExistsRow) + (NamedText(c.pivot, Some(alias)) + u), c.pivot, alias, u,
                  SameColumns(alias, c.pivotTarget, child, c.targetColumn), v,
                  SameColumns(alias, c.pivotRoot, outer, c.localColumn), w);
  }

  lemma ReadsSameText(a: string, x: string, b: string, y: string, rest: Sql)
    ensures ReadTest(SameText(a, x, b, y) + rest) == Read(SameColumns(a, x, b, y), rest)
    ensures NoSum(SameText(a, x, b, y) + rest)
  {
    hide ReadTest, NoSum, QualifiedColumn;
    ReadsSame(a, x, b, y, rest);
  }

  /** The conditions of a relation: one test, or two. */
  lemma ReadsCorrelation(c: Correlation, child: string, outer: string, rest: Sql)
    ensures !c.Morph? ==>
              && ReadTest(CorrelationSql(c, child, outer) + rest) == Read(MeantCorrelation(c, child, outer)[0], rest)
              && NoSum(CorrelationSql(c, child, outer) + rest) && |MeantCorrelation(c, child, outer)| == 1
    ensures c.Morph? ==>
              var first, second := SameText(child, c.idColumn, outer, c.localColumn),
                                   TypeText(child, c.typeColumn, Text(c.typeValue));
              var ms := MeantCorrelation(c, child, outer);
              && CorrelationSql(c, child, outer) + rest == first + (W(Key.Connect(true)) + (second + rest))
              && ReadTest(first + (W(Key.Connect(true)) + (second + rest)))
              == Read(ms[0], W(Key.Connect(true)) + (second + rest))
              && NoSum(first + (W(Key.Connect(true)) + (second + rest)))
              && ReadTest(second + rest) == Read(ms[1], rest) && |ms| == 2
  {
    hide ReadTest, NoSum, SameText, ThroughText, CorrelationSql;
    match c
    case Direct(childColumn, outerColumn) =>
      DirectIs(c, child, outer);
      ReadsSameText(child, childColumn, outer, outerColumn, rest);
    case Through(_, _, _, _, _) => ReadsThrough(c, child, outer, rest);
    case Morph(idColumn, localColumn, typeColumn, typeValue) =>
      MorphIs(c, child, outer);
      var first, second := SameText(child, idColumn, outer, localColumn), TypeText(child, typeColumn, Text(typeValue));
      Around3(first, W(Key.Connect(true)), second, rest);
      ReadsSameText(child, idColumn, outer, localColumn, W(Key.Connect(true)) + (second + rest));
      ReadsType(child, typeColumn, Text(typeValue), rest);
  }

  /** They may stand alone, up to where no AND follows. */
  lemma ReadsOwn(c: Correlation, child: string, outer: string, rest: Sql)
    requires !Starts(rest, Key.Connect(true))
    ensures ReadTests(CorrelationSql(c, child, outer) + rest) == Read(MeantCorrelation(c, child, outer), rest)
  {
    hide ReadTest, ReadTests, NoSum, SameText, TypeText, CorrelationSql, MeantCorrelation;
    ReadsCorrelation(c, child, outer, rest);
    var ms := MeantCorrelation(c, child, outer);
    if c.Morph? {
      var first, second := SameText(child, c.idColumn, outer, c.localColumn),
                           TypeText(child, c.typeColumn, Text(c.typeValue));
      Starting(Key.Connect(true), second + rest);
      StepTests(second + rest, ms[1], rest);
      StepTests(first + (W(Key.Connect(true)) + (second + rest)), ms[0], W(Key.Connect(true)) + (second + rest));
      assert [ms[0]] + [ms[1]] == ms;
    } else {
      StepTests(CorrelationSql(c, child, outer) + rest, ms[0], rest);
      assert [ms[0]] == ms;
    }
  }

  /** Or in parentheses. */
  lemma ReadsOwnGroup(c: Correlation, child: string, outer: string, rest: Sql)
    ensures |MeantCorrelation(c, child, outer)| == 1 || |MeantCorrelation(c, child, outer)| == 2
    ensures ReadTest(W(Key.Open) + (CorrelationSql(c, child, outer) + (W(Key.Close) + rest)))
         == Read(InGroup(MeantCorrelation(c, child, outer)), rest)
  {
    hide ReadTest, ReadGroup, NoSum, SameText, TypeText, CorrelationSql, MeantCorrelation;
    var z, t := W(Key.Close) + rest, CorrelationSql(c, child, outer);
    Starting(Key.Close, rest);
    Starting(Key.Open, t + z);
    ReadsCorrelation(c, child, outer, z);
    StepGroup(W(Key.Open) + (t + z));
    var ms := MeantCorrelation(c, child, outer);
    if c.Morph? {
      var first, second := SameText(child, c.idColumn, outer, c.localColumn),
                           TypeText(child, c.typeColumn, Text(c.typeValue));
      Starting(Key.Connect(true), second + z);
      StepJoint(t + z, ms[0], W(Key.Connect(true)) + (second + z), true, ms[1], z);
    } else {
      StepGrouped(t + z, ms[0], z);
    }
  }

  lemma FilterText(negated: bool, t: Sql, rest: Sql)
    ensures (FilterOpening(negated) + t + FilterClosing()) + rest
         == W(Key.Open) + (W(Key.Exists(negated)) + (t + (W(Key.Close) + (W(Key.Close) + rest))))
  {
    Around3(FilterOpening(negated), t, FilterClosing(), rest);
    assert FilterClosing() + rest == W(Key.Close) + (W(Key.Close) + rest);
    var u := t + (W(Key.Close) + (W(Key.Close) + rest));
    assert FilterOpening(negated) + u == W(Key.Open) + (W(Key.Exists(negated)) + u);
  }

  lemma FilteredAlone(f: Sql, rest: Sql)
    ensures [] + f + [] + [] + [] == f && ([] + f + [] + [] + []) + rest == f + rest
  {
    Nothing(f);
  }

  lemma FilteredBehind(f: Sql, none: bool, own: Sql, rest: Sql)
    ensures var text := [] + f + (Separator(none, Key.Connect(true)) + W(Key.Open)) + own + W(Key.Close);
            var g := W(Key.Open) + (own + (W(Key.Close) + rest));
            text != [] && text + rest == if none then f + g else f + (W(Key.Connect(true)) + g)
    ensures none && f == [] ==>
              f + (W(Key.Open) + (own + (W(Key.Close) + rest))) == W(Key.Open) + (own + (W(Key.Close) + rest))
  {
    var sep, u := Separator(none, Key.Connect(true)), own + (W(Key.Close) + rest);
    Pair5([], f, sep + W(Key.Open), own, W(Key.Close), rest);
    Nothing(f + ((sep + W(Key.Open)) + u));
    assert (sep + W(Key.Open)) + u == sep + (W(Key.Open) + u);
    Nothing(W(Key.Open) + u);
  }

  // ----- clauses that may be missing

  lemma ReadsGroupBy(q: Select, aliases: Aliases, rest: Sql)
    requires KnownColumns(q.groupBy, aliases) && Later(rest, 4)
    ensures GroupSql(q, aliases).Some?
    ensures var t := GroupSql(q, aliases).value + rest;
            ReadGroupBy(t) == Read(MeantColumns(q.groupBy, aliases), rest) && Later(t, 3)
  {
    hide ReadColumns, ColumnList, KnownColumns;
    ColumnsExist(q.groupBy, aliases, true);
    LaterIs(rest, 4);
    var x := ColumnList(q.groupBy, aliases, true).value;
    Nothing(rest);
    if q.groupBy == [] {
      NoColumns(aliases);
      Around3([], x, [], rest);
    } else {
      Around3(W(Key.GroupBy), x, [], rest);
      Starting(Key.GroupBy, x + rest);
      ReadsColumns(q.groupBy, aliases, rest);
    }
  }

  lemma NoColumns(aliases: Aliases)
    ensures ColumnList([], aliases, true) == Some([]) && MeantColumns([], aliases) == []
  {}

  // ----- common table expressions

  /** The columns of a common table expression in parentheses, or nothing. */
  function CommonColumns(columns: seq<string>): Sql {
    if columns == [] then [] else W(Key.ListOpen) + NameList(columns, true) + W(Key.Close)
  }

  lemma ReadsCommonColumns(columns: seq<string>, rest: Sql)
    requires !Starts(rest, Key.ListOpen)
    ensures ReadCommonColumns(CommonColumns(columns) + rest) == Read(columns, rest)
  {
    hide ReadNames, NameList;
    if columns == [] {
      Nothing(rest);
    } else {
      Around3(W(Key.ListOpen), NameList(columns, true), W(Key.Close), rest);
      Starting(Key.ListOpen, NameList(columns, true) + (W(Key.Close) + rest));
      Starting(Key.Close, rest);
      ReadsNames(columns, W(Key.Close) + rest);
    }
  }

  lemma CteText(c: Cte, t: Sql, rest: Sql)
    ensures (CteHead(c) + t + W(Key.Close)) + rest
         == [Name(c.name)] + (CommonColumns(c.columns) + (W(Key.AsOpen) + (t + (W(Key.Close) + rest))))
  {
    hide NameList;
    var u := t + (W(Key.Close) + rest);
    Around3(CteHead(c), t, W(Key.Close), rest);
    Nothing([Name(c.name)]);
    assert CteHead(c) == [Name(c.name)] + CommonColumns(c.columns) + W(Key.AsOpen);
    Around3([Name(c.name)], CommonColumns(c.columns), W(Key.AsOpen), u);
  }

  // ----- the end of a query

  function LimitText(limit: Option<nat>): Sql { match limit case None => [] case Some(n) => W(Key.Limit(n)) }

  function OffsetText(offset: Option<nat>): Sql { match offset case None => [] case Some(n) => W(Key.Offset(n)) }

  lemma ReadsLimits(limit: Option<nat>, offset: Option<nat>, rest: Sql)
    requires EndsStatement(rest)
    ensures var u := OffsetText(offset) + rest;
            && ReadOffset(u) == (offset, rest) && ReadLimit(LimitText(limit) + u) == (limit, u)
            && Later(LimitText(limit) + u, 7)
  {
    var u := OffsetText(offset) + rest;
    Nothing(rest);
    Nothing(u);
    if offset.Some? { Starting(Key.Offset(offset.value), rest); }
    if limit.Some? { Starting(Key.Limit(limit.value), u); }
  }

  lemma ReadsTail(q: Select, aliases: Aliases, rest: Sql)
    requires KnownOrder(q.orderBy, aliases) && EndsStatement(rest)
    ensures Tail(q, aliases).Some?
    ensures var u := OffsetText(q.offset) + rest;
            var v := LimitText(q.limit) + u;
            && ReadOrderBy(Tail(q, aliases).value + rest) == Read(MeantOrder(q.orderBy, aliases), v)
            && Later(Tail(q, aliases).value + rest, 6)
  {
    hide ReadOrderings, OrderList, KnownOrder, Tail, LimitText, OffsetText, MeantOrder;
    ReadsLimits(q.limit, q.offset, rest);
    TailText(q, aliases, rest);
    var v := LimitText(q.limit) + (OffsetText(q.offset) + rest);
    LaterIs(v, 7);
    if q.orderBy == [] {
      NoOrders(aliases);
    } else {
      var orders := OrderList(q.orderBy, aliases, true).value;
      Starting(Key.OrderBy, orders + v);
      ReadsOrder(q.orderBy, aliases, v);
    }
  }

  lemma TailText(q: Select, aliases: Aliases, rest: Sql)
    requires KnownOrder(q.orderBy, aliases)
    ensures Tail(q, aliases).Some? && OrderList(q.orderBy, aliases, true).Some?
    ensures var v := LimitText(q.limit) + (OffsetText(q.offset) + rest);
            Tail(q, aliases).value + rest
            == if q.orderBy == [] then v else W(Key.OrderBy) + (OrderList(q.orderBy, aliases, true).value + v)
  {
    hide OrderList, KnownOrder;
    OrderExists(q.orderBy, aliases, true);
    var v := LimitText(q.limit) + (OffsetText(q.offset) + rest);
    var orders := OrderList(q.orderBy, aliases, true).value;
    var head := if q.orderBy == [] then [] else W(Key.OrderBy);
    TailIs(q, aliases);
    hide Tail, LimitText, OffsetText;
    Around3(head, orders, LimitText(q.limit) + OffsetText(q.offset), rest);
    assert (LimitText(q.limit) + OffsetText(q.offset)) + rest == v;
    NoOrders(aliases);
    Nothing(v);
  }

  lemma TailIs(q: Select, aliases: Aliases)
    requires OrderList(q.orderBy, aliases, true).Some?
    ensures Tail(q, aliases)
         == Some((if q.orderBy == [] then [] else W(Key.OrderBy)) + OrderList(q.orderBy, aliases, true).value
                 + (LimitText(q.limit) + OffsetText(q.offset)))
  {
    hide OrderList;
  }

  lemma NoOrders(aliases: Aliases)
    ensures OrderList([], aliases, true) == Some([]) && MeantOrder([], aliases) == []
  {}
}
