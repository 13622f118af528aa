/** What the reader makes of a text, one step at a time. */
module ReaderSteps {
  import opened Wrappers
  import opened Values
  import opened Tokens
  import opened SqlWords
  import opened Queries
  import opened SqlReader

  // ----- texts one behind the other

  lemma Starting(k: Key, rest: Sql)
    ensures var t := W(k) + rest; t != [] && t[0] == Word(k) && t[1..] == rest && Starts(t, k) && Sees(t)
  {}

  lemma Around3(a: Sql, x: Sql, b: Sql, rest: Sql)
    ensures (a + x + b) + rest == a + (x + (b + rest))
  {}

  lemma Pair5(a: Sql, x: Sql, b: Sql, y: Sql, c: Sql, rest: Sql)
    ensures (a + x + b + y + c) + rest == a + (x + (b + (y + (c + rest))))
  {}

  lemma Nothing(t: Sql)
    ensures [] + t == t && t + [] == t
  {}

  /** The first element of a list, and one behind another. */
  lemma OfList(k: Key, x: Sql, y: Sql, rest: Sql)
    ensures (Separator(true, k) + x + [] + y + []) + rest == x + (y + rest)
    ensures (Separator(false, k) + x + [] + y + []) + rest == W(k) + (x + (y + rest))
  {
    Pair5(Separator(true, k), x, [], y, [], rest);
    Pair5(Separator(false, k), x, [], y, [], rest);
    Nothing(x + (y + rest));
    Nothing(y + rest);
    Nothing(rest);
  }

  // ----- names and columns

  /** The end of a list of columns. */
  predicate EndsColumns(rest: Sql) { !Starts(rest, Key.Dot) && !Starts(rest, Key.Comma) }

  // ----- one step of the reader

  /** What a term may begin with. */
  predicate BeginsTerm(t: Sql) {
    t != [] &&
      (t[0].Literal? || t[0].Name? || (t[0].Word? && (t[0].key.Open? || t[0].key.CaseBegin? || t[0].key.Call?)))
  }

  lemma TermBegins(t: Sql)
    ensures ReadTerm(t).Read? ==> BeginsTerm(t)
  {}

  lemma StepCalculated(t: Sql, left: Term, u: Sql, op: ArithmeticOp, right: Term, v: Sql)
    requires Starts(t, Key.Open) && ReadTerm(t[1..]) == Read(left, u) && Starts(u, Key.Calculate(op))
    requires ReadTerm(u[1..]) == Read(right, v) && Starts(v, Key.Close)
    ensures ReadTerm(t) == Read(Calculated(left, op, right), v[1..])
  {}

  lemma StepCall(t: Sql, name: string, args: seq<Term>, u: Sql)
    requires Starts(t, Key.Call(name)) && !Starts(t[1..], Key.Distinctly) && !Starts(t[1..], Key.Star)
    requires ReadArgs(t[1..]) == Read(args, u)
    ensures Starts(u, Key.Close) ==> ReadTerm(t) == Read(Called(name, false, false, args), u[1..])
    ensures Starts(u, Key.OverOpen) ==> ReadTerm(t) == ReadOver(name, args, u[1..])
  {}

  lemma StepArgs(t: Sql)
    ensures Starts(t, Key.Close) || Starts(t, Key.OverOpen) ==> ReadArgs(t) == Read([], t)
    ensures BeginsTerm(t) ==> ReadArgs(t) == ReadTerms(t)
  {}

  lemma StepTerms(t: Sql, x: Term, u: Sql)
    requires ReadTerm(t) == Read(x, u)
    ensures !Starts(u, Key.Comma) ==> ReadTerms(t) == Read([x], u)
    ensures Starts(u, Key.Comma) && ReadTerms(u[1..]).Read? ==>
              ReadTerms(t) == Read([x] + ReadTerms(u[1..]).x, ReadTerms(u[1..]).rest)
  {}

  lemma StepChosen(t: Sql, choices: seq<Choice>, u: Sql)
    requires Starts(t, Key.CaseBegin) && ReadChoices(t[1..]) == Read(choices, u)
    ensures Starts(u, Key.CaseEnd) ==> ReadTerm(t) == Read(Chosen(choices, NoFallback), u[1..])
    ensures Starts(u, Key.CaseElse) && ReadTerm(u[1..]).Read? && Starts(ReadTerm(u[1..]).rest, Key.CaseEnd) ==>
              ReadTerm(t) == Read(Chosen(choices, Fallback(ReadTerm(u[1..]).x)), ReadTerm(u[1..]).rest[1..])
  {}

  lemma StepChoice(t: Sql, test: Test, u: Sql, x: Term, v: Sql)
    requires Starts(t, Key.CaseWhen) && ReadTest(t[1..]) == Read(test, u) && Starts(u, Key.CaseThen)
    requires ReadTerm(u[1..]) == Read(x, v)
    ensures ReadChoice(t) == Read(Choice(test, x), v)
  {}

  lemma StepChoices(t: Sql, c: Choice, u: Sql)
    requires ReadChoice(t) == Read(c, u)
    ensures !Starts(u, Key.CaseWhen) ==> ReadChoices(t) == Read([c], u)
    ensures Starts(u, Key.CaseWhen) && ReadChoices(u).Read? ==>
              ReadChoices(t) == Read([c] + ReadChoices(u).x, ReadChoices(u).rest)
  {}

  // ----- terms

  lemma FlatTermsParts(x: Term, xs: seq<Term>)
    requires forall i | 0 <= i < |[x] + xs| :: FlatTerm(([x] + xs)[i])
    ensures FlatTerm(x) && forall i | 0 <= i < |xs| :: FlatTerm(xs[i])
  {
    hide FlatTerm;
    assert ([x] + xs)[0] == x;
    forall i | 0 <= i < |xs|
      ensures FlatTerm(xs[i])
    {
      assert ([x] + xs)[i + 1] == xs[i];
    }
  }

  lemma CallRead(t: Sql, name: string)
    requires Starts(t, Key.Call(name))
    ensures ReadTerm(t) == ReadCall(name, t[1..])
  {}

  lemma TermsBegin(t: Sql)
    ensures ReadTerms(t).Read? ==> BeginsTerm(t)
  {
    TermBegins(t);
    hide ReadTerm;
  }

  lemma OverReads(name: string, args: seq<Term>, t: Sql, partition: seq<ColumnName>, u: Sql, orderings: seq<Ordering>,
                  z: Sql)
    requires forall i | 0 <= i < |args| :: FlatTerm(args[i])
    requires (if Starts(t, Key.PartitionBy) then ReadColumns(t[1..]) else Read([], t)) == Read(partition, u)
    requires var v := if partition != [] && Starts(u, Key.Space) then u[1..] else u;
             (if Starts(v, Key.OrderInside) then ReadOrderings(v[1..]) else Read([], v)) == Read(orderings, z)
    requires Starts(z, Key.Close)
    ensures ReadOver(name, args, t) == Read(Windowed(name, args, partition, orderings), z[1..])
  {
    hide ReadColumns, ReadOrderings, FlatTerm;
  }

  // ----- CASE

  lemma FlatChoicesParts(c: Choice, cs: seq<Choice>)
    requires forall i | 0 <= i < |[c] + cs| :: FlatTest(([c] + cs)[i].test) && FlatTerm(([c] + cs)[i].result)
    ensures FlatTest(c.test) && FlatTerm(c.result)
    ensures forall i | 0 <= i < |cs| :: FlatTest(cs[i].test) && FlatTerm(cs[i].result)
  {
    hide FlatTerm, FlatTest;
    assert ([c] + cs)[0] == c;
    forall i | 0 <= i < |cs|
      ensures FlatTest(cs[i].test) && FlatTerm(cs[i].result)
    {
      assert ([c] + cs)[i + 1] == cs[i];
    }
  }

  // ----- tests

  /** No calculation begins with the first term of the text. */
  predicate NoSum(t: Sql) {
    ReadTerm(t).Read? ==> !(Sees(ReadTerm(t).rest) && ReadTerm(t).rest[0].key.Calculate?)
  }

  lemma StepAbout(t: Sql, x: Term, u: Sql)
    requires ReadTerm(t) == Read(x, u) && FlatTerm(x)
    ensures ReadTest(t) == ReadAbout(x, u)
  {
    TermBegins(t);
    hide ReadTerm, ReadAbout;
  }

  lemma StepCompared(x: Term, u: Sql, op: CompareOp, y: Term, v: Sql)
    requires FlatTerm(x) && Starts(u, Key.Compare(op)) && ReadTerm(u[1..]) == Read(y, v)
    ensures ReadAbout(x, u) == Read(Compared(x, op, y), v)
  {}

  lemma StepNulled(x: Term, u: Sql, negated: bool)
    requires FlatTerm(x) && Starts(u, Key.IsNull(negated))
    ensures ReadAbout(x, u) == Read(Nulled(x, negated), u[1..])
  {}

  lemma StepMatched(x: Term, u: Sql, negated: bool, y: Term, v: Sql)
    requires FlatTerm(x) && Starts(u, Key.Like(negated)) && ReadTerm(u[1..]) == Read(y, v)
    ensures ReadAbout(x, u) == Read(Matched(x, y, negated), v)
  {}

  lemma StepRanged(x: Term, u: Sql, negated: bool, y: Term, v: Sql, z: Term, end: Sql)
    requires FlatTerm(x) && Starts(u, Key.Between(negated)) && ReadTerm(u[1..]) == Read(y, v)
    requires Starts(v, Key.Connect(true)) && ReadTerm(v[1..]) == Read(z, end)
    ensures ReadAbout(x, u) == Read(Ranged(x, y, z, negated), end)
  {}

  lemma StepListed(x: Term, u: Sql, negated: bool, vs: seq<Value>, v: Sql)
    requires FlatTerm(x) && Starts(u, Key.InOpen(negated)) && ReadValues(u[1..]) == Read(vs, v) && Starts(v, Key.Close)
    ensures ReadAbout(x, u) == Read(Listed(x, vs, negated), v[1..])
  {}

  lemma StepSelected(x: Term, u: Sql, negated: bool, q: Statement, v: Sql)
    requires FlatTerm(x) && Starts(u, Key.InOpen(negated)) && ReadClosed(u[1..]) == Read(q, v)
    requires u[1..] != [] && !u[1..][0].Literal?
    ensures ReadAbout(x, u) == Read(Selected(x, q, negated), v)
  {}

  lemma StepSettled(t: Sql, holds: bool)
    requires Starts(t, Key.Truth(holds))
    ensures ReadTest(t) == Read(Settled(holds), t[1..]) && NoSum(t)
  {}

  lemma StepFound(t: Sql, negated: bool, q: Statement, u: Sql)
    requires Starts(t, Key.Exists(negated)) && ReadClosed(t[1..]) == Read(q, u)
    ensures ReadTest(t) == Read(Found(q, negated), u) && NoSum(t)
  {}

  lemma StepOpposite(t: Sql, x: Test, u: Sql)
    requires Starts(t, Key.NotOpen) && ReadTest(t[1..]) == Read(x, u) && Starts(u, Key.Close)
    ensures ReadTest(t) == Read(Opposite(x), u[1..]) && NoSum(t)
  {}

  /** What begins with a parenthesis is a group if it is no calculation. */
  lemma StepGroup(t: Sql)
    requires Starts(t, Key.Open) && NoSum(t[1..])
    ensures ReadTest(t) == ReadGroup(t[1..]) && NoSum(t)
  {}

  lemma StepJoint(t: Sql, a: Test, u: Sql, isAnd: bool, b: Test, v: Sql)
    requires ReadTest(t) == Read(a, u) && Starts(u, Key.Connect(isAnd)) && ReadTest(u[1..]) == Read(b, v)
    requires Starts(v, Key.Close)
    ensures ReadGroup(t) == Read(Joint(isAnd, a, b), v[1..])
  {}

  lemma StepGrouped(t: Sql, a: Test, u: Sql)
    requires ReadTest(t) == Read(a, u) && Starts(u, Key.Close)
    ensures ReadGroup(t) == Read(Grouped(a), u[1..])
  {}

  lemma StepClosed(t: Sql, q: Statement, u: Sql)
    requires ReadStatement(t) == Read(q, u) && Starts(u, Key.Close)
    ensures ReadClosed(t) == Read(q, u[1..])
  {}

  lemma StatementBegins(t: Sql)
    ensures ReadStatement(t).Read? ==> t != [] && t[0].Word?
  {
    CoreBegins(t);
    hide ReadCore, ReadCommons, ReadFurther;
    if !Sees(t) { assert ReadWith(t) == Read((false, []), t); }
  }

  lemma CoreBegins(t: Sql)
    ensures ReadCore(t).Read? ==> Starts(t, Key.Select)
  {
    hide ReadItems, ReadOrigin, ReadLinks, ReadRestriction, ReadGroupTest;
    assert ReadList(t).Read? ==> Starts(t, Key.Select);
  }

  /** A term with something said of it. */
  lemma AboutReads(t: Sql, x: Term, u: Sql, test: Test, end: Sql)
    requires ReadTerm(t) == Read(x, u) && FlatTerm(x) && Sees(u) && !u[0].key.Calculate?
    requires ReadAbout(x, u) == Read(test, end)
    ensures ReadTest(t) == Read(test, end) && NoSum(t)
  {
    StepAbout(t, x, u);
  }

  // ----- the order of the clauses

  /** How late in a statement a word may stand behind its source. */
  function Level(k: Key): nat {
    if k.JoinOn? then 1 else if k.Where? || k.WhereOpen? then 2 else if k.GroupBy? then 3 else if k.Having? then 4
    else if k.Combine? then 5 else if k.OrderBy? then 6 else if k.Limit? then 7 else if k.Offset? then 8
    else if k.Close? || k.CloseAs? || k.Semicolon? then 9 else 0
  }

  /** The text goes on with a clause no earlier than that, or ends. */
  predicate Later(t: Sql, n: nat) { t == [] || (t[0].Word? && Level(t[0].key) >= n) }

  lemma LaterIs(t: Sql, n: nat)
    requires Later(t, n) && n >= 1
    ensures EndsColumns(t) && !Starts(t, Key.As) && !Starts(t, Key.Connect(true))
    ensures n >= 2 ==> !(Sees(t) && t[0].key.JoinOn?)
    ensures n >= 3 ==> !Starts(t, Key.Where) && !Starts(t, Key.WhereOpen)
    ensures n >= 4 ==> !Starts(t, Key.GroupBy)
    ensures n >= 5 ==> !Starts(t, Key.Having)
    ensures n >= 6 ==> !(Sees(t) && t[0].key.Combine?)
    ensures n >= 7 ==> !Starts(t, Key.OrderBy)
    ensures n >= 8 ==> !(Sees(t) && t[0].key.Limit?)
    ensures n >= 9 ==> !(Sees(t) && t[0].key.Offset?)
  {}

  /** What may stand behind a statement. */
  predicate EndsStatement(rest: Sql) { Later(rest, 9) }

  // ----- what is selected

  lemma FlatItemsParts(x: Item, xs: seq<Item>)
    requires forall i | 0 <= i < |[x] + xs| :: FlatTerm(([x] + xs)[i].term)
    ensures FlatTerm(x.term) && forall i | 0 <= i < |xs| :: FlatTerm(xs[i].term)
  {
    hide FlatTerm;
    assert ([x] + xs)[0] == x;
    forall i | 0 <= i < |xs|
      ensures FlatTerm(xs[i].term)
    {
      assert ([x] + xs)[i + 1] == xs[i];
    }
  }

  lemma StepItem(t: Sql, x: Term, u: Sql)
    requires ReadTerm(t) == Read(x, u)
    ensures !Starts(u, Key.As) ==> ReadItem(t) == Read(Item(x, None), u)
    ensures Starts(u, Key.As) && ReadName(u[1..]).Read? ==>
              ReadItem(t) == Read(Item(x, Some(ReadName(u[1..]).x)), ReadName(u[1..]).rest)
  {}

  lemma StepItems(t: Sql, x: Item, u: Sql)
    requires ReadItem(t) == Read(x, u)
    ensures !Starts(u, Key.Comma) ==> ReadItems(t) == Read([x], u)
    ensures Starts(u, Key.Comma) && ReadItems(u[1..]).Read? ==>
              ReadItems(t) == Read([x] + ReadItems(u[1..]).x, ReadItems(u[1..]).rest)
  {}

  lemma ItemsBegin(t: Sql)
    ensures ReadItems(t).Read? ==> BeginsTerm(t)
  {
    TermBegins(t);
    hide ReadTerm;
    assert ReadItem(t).Read? ==> ReadTerm(t).Read?;
  }

  // ----- where it comes from

  lemma StepNamed(t: Sql, name: string, alias: Option<string>, u: Sql)
    requires ReadNamed(t) == Read((name, alias), u) && !Starts(t, Key.Open)
    ensures ReadOrigin(t) == Read(Named(name, alias), u)
  {}

  lemma StepInner(t: Sql, q: Statement, u: Sql, name: string, v: Sql)
    requires Starts(t, Key.Open) && ReadStatement(t[1..]) == Read(q, u) && Starts(u, Key.CloseAs)
    requires ReadName(u[1..]) == Read(name, v)
    ensures ReadOrigin(t) == Read(Inner(q, name), v)
  {}

  // ----- joins

  lemma StepLink(t: Sql, isLeft: bool, table: string, alias: Option<string>, u: Sql, a: ColumnName, v: Sql,
                 b: ColumnName,
                 w: Sql)
    requires Starts(t, Key.JoinOn(isLeft)) && ReadNamed(t[1..]) == Read((table, alias), u) && Starts(u, Key.On)
    requires ReadColumn(u[1..]) == Read(a, v) && Starts(v, Key.Compare(Eq)) && ReadColumn(v[1..]) == Read(b, w)
    ensures ReadLink(t) == Read(Link(isLeft, table, alias, a, b), w)
  {}

  lemma StepLinks(t: Sql, x: Link, u: Sql)
    requires ReadLink(t) == Read(x, u) && ReadLinks(u).Read?
    ensures ReadLinks(t) == Read([x] + ReadLinks(u).x, ReadLinks(u).rest)
  {}

  // ----- conditions

  lemma StepTests(t: Sql, x: Test, u: Sql)
    requires ReadTest(t) == Read(x, u)
    ensures !Starts(u, Key.Connect(true)) ==> ReadTests(t) == Read([x], u)
    ensures Starts(u, Key.Connect(true)) && ReadTests(u[1..]).Read? ==>
              ReadTests(t) == Read([x] + ReadTests(u[1..]).x, ReadTests(u[1..]).rest)
  {}

  lemma StepLinkFound(t: Sql, table: string, alias: string, u: Sql, a: Test, v: Sql, b: Test, w: Sql)
    requires Starts(t, Key.ExistsRow) && ReadNamed(t[1..]) == Read((table, Some(alias)), u) && Starts(u, Key.Where)
    requires ReadTest(u[1..]) == Read(a, v) && Starts(v, Key.Connect(true))
    requires ReadTest(v[1..]) == Read(b, w) && Starts(w, Key.Close)
    ensures ReadTest(t) == Read(LinkFound(table, alias, a, b), w[1..]) && NoSum(t)
  {
    StepExistsRow(t);
    hide ReadTerm, ReadNamed, ReadTest, NoSum;
    LinkFoundReads(t[1..], table, alias, u, a, v, b, w);
  }

  lemma StepExistsRow(t: Sql)
    requires Starts(t, Key.ExistsRow)
    ensures ReadTest(t) == ReadLinkFound(t[1..]) && NoSum(t)
  {
    hide ReadLinkFound;
  }

  lemma LinkFoundReads(t: Sql, table: string, alias: string, u: Sql, a: Test, v: Sql, b: Test, w: Sql)
    requires ReadNamed(t) == Read((table, Some(alias)), u) && Starts(u, Key.Where)
    requires ReadTest(u[1..]) == Read(a, v) && Starts(v, Key.Connect(true))
    requires ReadTest(v[1..]) == Read(b, w) && Starts(w, Key.Close)
    ensures ReadLinkFound(t) == Read(LinkFound(table, alias, a, b), w[1..])
  {
    hide ReadTest, ReadNamed, FlatTest;
  }

  lemma FlatTestsParts(x: Test, xs: seq<Test>)
    requires forall i | 0 <= i < |[x] + xs| :: FlatTest(([x] + xs)[i])
    ensures FlatTest(x) && forall i | 0 <= i < |xs| :: FlatTest(xs[i])
  {
    hide FlatTest;
    assert ([x] + xs)[0] == x;
    forall i | 0 <= i < |xs|
      ensures FlatTest(xs[i])
    {
      assert ([x] + xs)[i + 1] == xs[i];
    }
  }

  /** The tests behind an AND, if there is one. */
  predicate TestsBehind(rest: Sql, more: seq<Test>, end: Sql) {
    if Starts(rest, Key.Connect(true)) then ReadTests(rest[1..]) == Read(more, end) else more == [] && end == rest
  }

  lemma TestsGoOn(t: Sql, x: Test, rest: Sql, more: seq<Test>, end: Sql)
    requires ReadTest(t) == Read(x, rest) && TestsBehind(rest, more, end)
    ensures ReadTests(t) == Read([x] + more, end)
  {
    hide ReadTest;
    assert [x] + [] == [x];
  }

  lemma BehindAnd(t: Sql, tests: seq<Test>, end: Sql)
    requires ReadTests(t) == Read(tests, end)
    ensures TestsBehind(W(Key.Connect(true)) + t, tests, end)
  {
    Starting(Key.Connect(true), t);
  }

  lemma FlatTestsFirst(xs: seq<Test>, ys: seq<Test>)
    requires forall i | 0 <= i < |xs + ys| :: FlatTest((xs + ys)[i])
    ensures forall i | 0 <= i < |xs| :: FlatTest(xs[i])
  {
    hide FlatTest;
    forall i | 0 <= i < |xs|
      ensures FlatTest(xs[i])
    {
      assert (xs + ys)[i] == xs[i];
    }
  }

  lemma NothingBehind(rest: Sql)
    requires !Starts(rest, Key.Connect(true))
    ensures TestsBehind(rest, [], rest)
  {}

  /** What can be read is not empty. */
  lemma ReadingIsSome(t: Sql, rest: Sql, tests: seq<Test>, end: Sql)
    requires ReadTests(t + rest) == Read(tests, end) && |end| >= |rest|
    ensures t != []
  {
    if t == [] { Nothing(rest); }
  }

  // ----- clauses that may be missing

  lemma StepOnlyIf(t: Sql, tests: seq<Test>, u: Sql)
    requires Starts(t, Key.Where) && ReadTests(t[1..]) == Read(tests, u)
    ensures ReadRestriction(t) == Read(OnlyIf(tests), u)
  {}

  lemma StepAlsoIf(t: Sql, own: Test, u: Sql, tests: seq<Test>, v: Sql)
    requires Starts(t, Key.WhereOpen) && ReadTest(t[1..]) == Read(own, u) && Starts(u, Key.CloseAndOpen)
    requires ReadTests(u[1..]) == Read(tests, v) && Starts(v, Key.Close)
    ensures ReadRestriction(t) == Read(AlsoIf(own, tests), v[1..])
  {}

  lemma StepUnrestricted(t: Sql)
    requires Later(t, 3)
    ensures ReadRestriction(t) == Read(Unrestricted, t)
  {}

  // ----- the whole query

  lemma StepCore(t0: Sql, distinct: bool, items: seq<Item>, t1: Sql, origin: Origin, t2: Sql, links: seq<Link>, t3: Sql,
                 restriction: Restriction, t4: Sql, groupBy: seq<ColumnName>, t5: Sql, groupTest: GroupTest, end: Sql)
    requires ReadList(t0) == Read((distinct, items), t1) && ReadOrigin(t1) == Read(origin, t2)
    requires ReadLinks(t2) == Read(links, t3) && ReadRestriction(t3) == Read(restriction, t4)
    requires ReadGroupBy(t4) == Read(groupBy, t5) && ReadGroupTest(t5) == Read(groupTest, end)
    ensures ReadCore(t0)
         == Read(Statement(false, [], distinct, items, origin, links, restriction, groupBy, groupTest, [], [],
                           None, None), end)
  {
    hide ReadList, ReadOrigin, ReadLinks, ReadRestriction, ReadGroupBy, ReadGroupTest, Flat, FlatTerm, FlatTest,
         FlatRestriction;
  }

  /** Links are read up to a clause behind the joins: so the text begins with a join, or with that clause. */
  lemma LinksAreLater(t: Sql, rest: Sql)
    requires ReadLinks(t).Read? && ReadLinks(t).rest == rest && Later(rest, 2)
    ensures Later(t, 1)
  {}

  // ----- common table expressions

  lemma FlatCommonsParts(x: Common, xs: seq<Common>)
    requires forall i | 0 <= i < |[x] + xs| :: Flat(([x] + xs)[i].query)
    ensures Flat(x.query) && forall i | 0 <= i < |xs| :: Flat(xs[i].query)
  {
    hide Flat;
    assert ([x] + xs)[0] == x;
    forall i | 0 <= i < |xs|
      ensures Flat(xs[i].query)
    {
      assert ([x] + xs)[i + 1] == xs[i];
    }
  }

  lemma StepCommon(t: Sql, name: string, u: Sql, columns: seq<string>, v: Sql, q: Statement, w: Sql)
    requires ReadName(t) == Read(name, u) && ReadCommonColumns(u) == Read(columns, v) && Starts(v, Key.AsOpen)
    requires ReadClosed(v[1..]) == Read(q, w)
    ensures ReadCommon(t) == Read(Common(name, columns, q), w)
  {}

  lemma StepCommons(t: Sql, x: Common, u: Sql)
    requires ReadCommon(t) == Read(x, u)
    ensures !Starts(u, Key.Comma) ==> ReadCommons(t) == Read([x], u)
    ensures Starts(u, Key.Comma) && ReadCommons(u[1..]).Read? ==>
              ReadCommons(t) == Read([x] + ReadCommons(u[1..]).x, ReadCommons(u[1..]).rest)
  {}

  // ----- set operations

  lemma StepFurther(t: Sql, op: SetOperator, q: Statement, u: Sql)
    requires Starts(t, Key.Combine(op)) && ReadCore(t[1..]) == Read(q, u) && ReadFurther(u).Read?
    ensures ReadFurther(t) == Read([Further(op, q)] + ReadFurther(u).x, ReadFurther(u).rest)
  {}

  lemma StepNoFurther(t: Sql)
    requires Later(t, 6)
    ensures ReadFurther(t) == Read([], t)
  {}

  lemma FlatFurtherParts(x: Further, xs: seq<Further>)
    requires forall i | 0 <= i < |[x] + xs| :: IsOperand(([x] + xs)[i].query) && Flat(([x] + xs)[i].query)
    ensures IsOperand(x.query) && Flat(x.query)
    ensures forall i | 0 <= i < |xs| :: IsOperand(xs[i].query) && Flat(xs[i].query)
  {
    hide Flat, IsOperand;
    assert ([x] + xs)[0] == x;
    forall i | 0 <= i < |xs|
      ensures IsOperand(xs[i].query) && Flat(xs[i].query)
    {
      assert ([x] + xs)[i + 1] == xs[i];
    }
  }

  lemma Eight(a: Sql, b: Sql, c: Sql, d: Sql, e: Sql, f: Sql, g: Sql, h: Sql, rest: Sql)
    ensures (a + b + c + d + e + f + g + h) + rest == a + (b + (c + (d + (e + (f + (g + (h + rest)))))))
  {
    Pair5(a + b + c + d, e, f, g, h, rest);
    Pair5(a, b, c, d, [], e + (f + (g + (h + rest))));
    Nothing(e + (f + (g + (h + rest))));
    Nothing(a + b + c + d);
  }

  // ----- the end of a query

  lemma StepStatement(t0: Sql, recursive: bool, commons: seq<Common>, t1: Sql, q: Statement, t2: Sql,
                      further: seq<Further>, t3: Sql, orderings: seq<Ordering>, t4: Sql, limit: Option<nat>,
                      t5: Sql, offset: Option<nat>, end: Sql)
    requires ReadWith(t0) == Read((recursive, commons), t1) && ReadCore(t1) == Read(q, t2)
    requires ReadFurther(t2) == Read(further, t3) && ReadOrderBy(t3) == Read(orderings, t4)
    requires ReadLimit(t4) == (limit, t5) && ReadOffset(t5) == (offset, end)
    ensures ReadStatement(t0)
         == Read(q.(recursive := recursive, commons := commons, further := further, orderings := orderings,
                    limit := limit,
                    offset := offset), end)
  {
    hide ReadWith, ReadCore, ReadFurther, ReadOrderBy, ReadLimit, ReadOffset, Flat;
  }
}
