/** Reading a statement: what its words, names and values say. */
module SqlReader {
  import opened Wrappers
  import opened Values
  import opened SqlWords
  import opened Tokens

  // ----- what can be said

  datatype ColumnName = Bare(column: string) | Qualified(alias: string, column: string)

  datatype Ordering = Ordering(column: ColumnName, ascending: bool)

  datatype Term =
    | Stored(c: ColumnName)
    | Given(v: Value)
    | Calculated(left: Term, op: ArithmeticOp, right: Term)
    | Called(name: string, distinct: bool, star: bool, args: seq<Term>)
    | Windowed(name: string, args: seq<Term>, partition: seq<ColumnName>, orderings: seq<Ordering>)
    | Chosen(choices: seq<Choice>, fallback: Fallback)

  datatype Choice = Choice(test: Test, result: Term)

  datatype Fallback = NoFallback | Fallback(term: Term)

  datatype Test =
    | Compared(left: Term, op: CompareOp, right: Term)
    | Nulled(operand: Term, negated: bool)
    | Matched(operand: Term, pattern: Term, negated: bool)
    | Ranged(operand: Term, lower: Term, upper: Term, negated: bool)
    | Listed(operand: Term, values: seq<Value>, negated: bool)
    | Selected(operand: Term, query: Statement, negated: bool)
    | Found(query: Statement, negated: bool)
    | LinkFound(table: string, alias: string, first: Test, second: Test)
    | Joint(isAnd: bool, first: Test, second: Test)
    | Opposite(inner: Test)
    | Grouped(inner: Test)
    | Settled(holds: bool)

  /** The tests of a list all have to hold. */
  datatype Restriction = Unrestricted | OnlyIf(tests: seq<Test>) | AlsoIf(own: Test, tests: seq<Test>)

  datatype Item = Item(term: Term, alias: Option<string>)

  datatype Origin = Named(table: string, alias: Option<string>) | Inner(query: Statement, name: string)

  datatype Link = Link(isLeft: bool, table: string, alias: Option<string>, left: ColumnName, right: ColumnName)

  datatype Common = Common(name: string, columns: seq<string>, query: Statement)

  datatype Further = Further(op: SetOperator, query: Statement)

  datatype GroupTest = NoGroupTest | GroupTest(test: Test)

  datatype Statement = Statement(
    recursive: bool, commons: seq<Common>, distinct: bool, items: seq<Item>, origin: Origin, links: seq<Link>,
    restriction: Restriction, groupBy: seq<ColumnName>, groupTest: GroupTest, further: seq<Further>,
    orderings: seq<Ordering>, limit: Option<nat>, offset: Option<nat>)

  // ----- operands of set operations

  /** Nothing that would belong to the whole if it were written down after the other operands. */
  predicate IsOperand(q: Statement) {
    q.commons == [] && !q.recursive && q.further == [] && q.orderings == [] && q.limit == None && q.offset == None
  }

  predicate FlatTerm(x: Term) {
    match x
    case Stored(_) => true
    case Given(_) => true
    case Calculated(left, _, right) => FlatTerm(left) && FlatTerm(right)
    case Called(_, _, _, args) => forall i | 0 <= i < |args| :: FlatTerm(args[i])
    case Windowed(_, args, _, _) => forall i | 0 <= i < |args| :: FlatTerm(args[i])
    case Chosen(choices, fallback) =>
      && (forall i | 0 <= i < |choices| :: FlatTest(choices[i].test) && FlatTerm(choices[i].result))
      && match fallback case NoFallback => true case Fallback(term) => FlatTerm(term)
  }

  predicate FlatTest(x: Test) {
    match x
    case Compared(left, _, right) => FlatTerm(left) && FlatTerm(right)
    case Nulled(operand, _) => FlatTerm(operand)
    case Matched(operand, pattern, _) => FlatTerm(operand) && FlatTerm(pattern)
    case Ranged(operand, lower, upper, _) => FlatTerm(operand) && FlatTerm(lower) && FlatTerm(upper)
    case Listed(operand, _, _) => FlatTerm(operand)
    case Selected(operand, query, _) => FlatTerm(operand) && Flat(query)
    case Found(query, _) => Flat(query)
    case LinkFound(_, _, first, second) => FlatTest(first) && FlatTest(second)
    case Joint(_, first, second) => FlatTest(first) && FlatTest(second)
    case Opposite(inner) => FlatTest(inner)
    case Grouped(inner) => FlatTest(inner)
    case Settled(_) => true
  }

  predicate FlatRestriction(x: Restriction) {
    match x
    case Unrestricted => true
    case OnlyIf(tests) => forall i | 0 <= i < |tests| :: FlatTest(tests[i])
    case AlsoIf(own, tests) => FlatTest(own) && forall i | 0 <= i < |tests| :: FlatTest(tests[i])
  }

  /** In this statement and all within it, operands of set operations are plain SELECTs. */
  predicate Flat(q: Statement) {
    && (forall i | 0 <= i < |q.commons| :: Flat(q.commons[i].query))
    && (forall i | 0 <= i < |q.items| :: FlatTerm(q.items[i].term))
    && (match q.origin case Named(_, _) => true case Inner(query, _) => Flat(query))
    && FlatRestriction(q.restriction)
    && (match q.groupTest case NoGroupTest => true case GroupTest(test) => FlatTest(test))
    && (forall i | 0 <= i < |q.further| :: IsOperand(q.further[i].query) && Flat(q.further[i].query))
  }

  // ----- reading

  /** What stands at the beginning of a text, and the text behind it. */
  datatype Reading<T> = Unreadable | Read(x: T, rest: Sql)

  predicate Sees(t: Sql) { t != [] && t[0].Word? }

  predicate Starts(t: Sql, k: Key) { t != [] && t[0] == Word(k) }

  function After(t: Sql, k: Key): (r: Option<Sql>)
    ensures r.Some? ==> t != [] && r.value == t[1..]
  {
    if Starts(t, k) then Some(t[1..]) else None
  }

  function ReadName(t: Sql): (r: Reading<string>)
    ensures r.Read? ==> |r.rest| < |t|
  {
    if t != [] && t[0].Name? then Read(t[0].id, t[1..]) else Unreadable
  }

  function ReadColumn(t: Sql): (r: Reading<ColumnName>)
    ensures r.Read? ==> |r.rest| < |t|
  {
    match ReadName(t)
    case Unreadable => Unreadable
    case Read(a, rest) =>
      match After(rest, Key.Dot)
      case None => Read(Bare(a), rest)
      case Some(behind) =>
        match ReadName(behind) case Unreadable => Unreadable case Read(c, end) => Read(Qualified(a, c), end)
  }

  function ReadNames(t: Sql): (r: Reading<seq<string>>)
    ensures r.Read? ==> |r.rest| < |t|
    decreases |t|
  {
    match ReadName(t)
    case Unreadable => Unreadable
    case Read(a, rest) =>
      match After(rest, Key.Comma)
      case None => Read([a], rest)
      case Some(behind) =>
        match ReadNames(behind) case Unreadable => Unreadable case Read(more, end) => Read([a] + more, end)
  }

  function ReadColumns(t: Sql): (r: Reading<seq<ColumnName>>)
    ensures r.Read? ==> |r.rest| < |t|
    decreases |t|
  {
    match ReadColumn(t)
    case Unreadable => Unreadable
    case Read(c, rest) =>
      match After(rest, Key.Comma)
      case None => Read([c], rest)
      case Some(behind) =>
        match ReadColumns(behind) case Unreadable => Unreadable case Read(more, end) => Read([c] + more, end)
  }

  function ReadOrderings(t: Sql): (r: Reading<seq<Ordering>>)
    ensures r.Read? ==> |r.rest| < |t|
    decreases |t|
  {
    match ReadColumn(t)
    case Unreadable => Unreadable
    case Read(c, rest) =>
      if !Sees(rest) || !rest[0].key.Direction? then Unreadable
      else
        var o := Ordering(c, rest[0].key.ascending);
        match After(rest[1..], Key.Comma)
        case None => Read([o], rest[1..])
        case Some(behind) =>
          match ReadOrderings(behind) case Unreadable => Unreadable case Read(more, end) => Read([o] + more, end)
  }

  function ReadValues(t: Sql): (r: Reading<seq<Value>>)
    ensures r.Read? ==> |r.rest| < |t|
    decreases |t|
  {
    if t == [] || !t[0].Literal? then Unreadable
    else
      match After(t[1..], Key.Comma)
      case None => Read([t[0].value], t[1..])
      case Some(behind) =>
        match ReadValues(behind) case Unreadable => Unreadable case Read(more, end) => Read([t[0].value] + more, end)
  }

  // ----- terms

  function ReadTerm(t: Sql): (r: Reading<Term>)
    ensures r.Read? ==> |r.rest| < |t| && FlatTerm(r.x)
    decreases |t|, 0
  {
    if t == [] then Unreadable
    else if t[0].Word? then
      if t[0].key == Key.Open then ReadCalculated(t[1..])
      else if t[0].key == Key.CaseBegin then ReadChosen(t[1..])
      else if t[0].key.Call? then ReadCall(t[0].key.name, t[1..])
      else Unreadable
    else if t[0].Literal? then Read(Given(t[0].value), t[1..])
    else match ReadColumn(t) case Unreadable => Unreadable case Read(c, rest) => Read(Stored(c), rest)
  }

  function ReadCalculated(t: Sql): (r: Reading<Term>)
    ensures r.Read? ==> |r.rest| < |t| && FlatTerm(r.x)
    decreases |t|, 1
  {
    match ReadTerm(t)
    case Unreadable => Unreadable
    case Read(left, rest) =>
      if !Sees(rest) || !rest[0].key.Calculate? then Unreadable
      else
        match ReadTerm(rest[1..])
        case Unreadable => Unreadable
        case Read(right, behind) =>
          match After(behind, Key.Close)
          case None => Unreadable
          case Some(end) => Read(Calculated(left, rest[0].key.op, right), end)
  }

  function ReadTerms(t: Sql): (r: Reading<seq<Term>>)
    ensures r.Read? ==> |r.rest| < |t| && forall i | 0 <= i < |r.x| :: FlatTerm(r.x[i])
    decreases |t|, 1
  {
    match ReadTerm(t)
    case Unreadable => Unreadable
    case Read(x, rest) =>
      match After(rest, Key.Comma)
      case None => Read([x], rest)
      case Some(behind) =>
        match ReadTerms(behind) case Unreadable => Unreadable case Read(more, end) => Read([x] + more, end)
  }

  /** The arguments of a call, none or some. */
  function ReadArgs(t: Sql): (r: Reading<seq<Term>>)
    ensures r.Read? ==> |r.rest| <= |t| && forall i | 0 <= i < |r.x| :: FlatTerm(r.x[i])
    decreases |t|, 2
  {
    if Starts(t, Key.Close) || Starts(t, Key.OverOpen) then Read([], t) else ReadTerms(t)
  }

  function ReadCall(name: string, t: Sql): (r: Reading<Term>)
    ensures r.Read? ==> |r.rest| < |t| && FlatTerm(r.x)
    decreases |t|, 3
  {
    var distinct := Starts(t, Key.Distinctly);
    var u := if distinct then t[1..] else t;
    if Starts(u, Key.Star) then
      match After(u[1..], Key.Close)
      case None => Unreadable
      case Some(end) => Read(Called(name, distinct, true, []), end)
    else
      match ReadArgs(u)
      case Unreadable => Unreadable
      case Read(args, rest) =>
        if Starts(rest, Key.Close) then Read(Called(name, distinct, false, args), rest[1..])
        else if Starts(rest, Key.OverOpen) && !distinct then ReadOver(name, args, rest[1..])
        else Unreadable
  }

  function ReadOver(name: string, args: seq<Term>, t: Sql): (r: Reading<Term>)
    requires forall i | 0 <= i < |args| :: FlatTerm(args[i])
    ensures r.Read? ==> |r.rest| < |t| && FlatTerm(r.x)
  {
    match (if Starts(t, Key.PartitionBy) then ReadColumns(t[1..]) else Read([], t))
    case Unreadable => Unreadable
    case Read(partition, rest) =>
      var u := if partition != [] && Starts(rest, Key.Space) then rest[1..] else rest;
      match (if Starts(u, Key.OrderInside) then ReadOrderings(u[1..]) else Read([], u))
      case Unreadable => Unreadable
      case Read(orderings, behind) =>
        match After(behind, Key.Close)
        case None => Unreadable
        case Some(end) => Read(Windowed(name, args, partition, orderings), end)
  }

  function ReadChosen(t: Sql): (r: Reading<Term>)
    ensures r.Read? ==> |r.rest| < |t| && FlatTerm(r.x)
    decreases |t|, 3
  {
    match ReadChoices(t)
    case Unreadable => Unreadable
    case Read(choices, rest) =>
      if Starts(rest, Key.CaseEnd) then Read(Chosen(choices, NoFallback), rest[1..])
      else if Starts(rest, Key.CaseElse) then
        match ReadTerm(rest[1..])
        case Unreadable => Unreadable
        case Read(x, behind) =>
          match After(behind, Key.CaseEnd)
          case None => Unreadable
          case Some(end) => Read(Chosen(choices, Fallback(x)), end)
      else Unreadable
  }

  function ReadChoices(t: Sql): (r: Reading<seq<Choice>>)
    ensures r.Read? ==> |r.rest| < |t| && forall i | 0 <= i < |r.x| :: FlatTest(r.x[i].test) && FlatTerm(r.x[i].result)
    decreases |t|, 2
  {
    match ReadChoice(t)
    case Unreadable => Unreadable
    case Read(c, rest) =>
      if Starts(rest, Key.CaseWhen) then
        match ReadChoices(rest) case Unreadable => Unreadable case Read(more, end) => Read([c] + more, end)
      else Read([c], rest)
  }

  function ReadChoice(t: Sql): (r: Reading<Choice>)
    ensures r.Read? ==> |r.rest| < |t| && FlatTest(r.x.test) && FlatTerm(r.x.result)
    decreases |t|, 1
  {
    match After(t, Key.CaseWhen)
    case None => Unreadable
    case Some(u) =>
      match ReadTest(u)
      case Unreadable => Unreadable
      case Read(test, rest) =>
        match After(rest, Key.CaseThen)
        case None => Unreadable
        case Some(behind) =>
          match ReadTerm(behind) case Unreadable => Unreadable case Read(x, end) => Read(Choice(test, x), end)
  }

  // ----- tests

  function ReadTest(t: Sql): (r: Reading<Test>)
    ensures r.Read? ==> |r.rest| < |t| && FlatTest(r.x)
    decreases |t|, 4
  {
    if !Sees(t) then ReadPlainTest(t)
    else
      var k := t[0].key;
      if k.Truth? then Read(Settled(k.holds), t[1..])
      else if k.Exists? then
        match ReadClosed(t[1..]) case Unreadable => Unreadable case Read(q, end) => Read(Found(q, k.negated), end)
      else if k.ExistsRow? then ReadLinkFound(t[1..])
      else if k.NotOpen? then ReadOpposite(t[1..])
      else ReadPlainTest(t)
  }

  function ReadOpposite(t: Sql): (r: Reading<Test>)
    ensures r.Read? ==> |r.rest| < |t| && FlatTest(r.x)
    decreases |t|, 5
  {
    match ReadTest(t)
    case Unreadable => Unreadable
    case Read(x, rest) => match After(rest, Key.Close) case None => Unreadable case Some(end) => Read(Opposite(x), end)
  }

  /** A test that begins with a term, or a group. */
  function ReadPlainTest(t: Sql): (r: Reading<Test>)
    ensures r.Read? ==> |r.rest| < |t| && FlatTest(r.x)
    decreases |t|, 3
  {
    match ReadTerm(t)
    case Unreadable => if Starts(t, Key.Open) then ReadGroup(t[1..]) else Unreadable
    case Read(x, rest) => ReadAbout(x, rest)
  }

  /** A statement and the parenthesis that closes it. */
  function ReadClosed(t: Sql): (r: Reading<Statement>)
    ensures r.Read? ==> |r.rest| < |t| && Flat(r.x)
    decreases |t|, 9
  {
    match ReadStatement(t)
    case Unreadable => Unreadable
    case Read(q, rest) => match After(rest, Key.Close) case None => Unreadable case Some(end) => Read(q, end)
  }

  function ReadLinkFound(t: Sql): (r: Reading<Test>)
    ensures r.Read? ==> |r.rest| < |t| && FlatTest(r.x)
    decreases |t|, 5
  {
    match ReadNamed(t)
    case Unreadable => Unreadable
    case Read((table, alias), rest) =>
      if alias.None? then Unreadable
      else
        match After(rest, Key.Where)
        case None => Unreadable
        case Some(u) =>
          match ReadTest(u)
          case Unreadable => Unreadable
          case Read(a, more) =>
            match After(more, Key.Connect(true))
            case None => Unreadable
            case Some(v) =>
              match ReadTest(v)
              case Unreadable => Unreadable
              case Read(b, behind) =>
                match After(behind, Key.Close)
                case None => Unreadable
                case Some(end) => Read(LinkFound(table, alias.value, a, b), end)
  }

  /** A name, and an alias if there is one. */
  function ReadNamed(t: Sql): (r: Reading<(string, Option<string>)>)
    ensures r.Read? ==> |r.rest| < |t|
  {
    match ReadName(t)
    case Unreadable => Unreadable
    case Read(name, rest) =>
      match After(rest, Key.As)
      case None => Read((name, None), rest)
      case Some(u) =>
        match ReadName(u) case Unreadable => Unreadable case Read(alias, end) => Read((name, Some(alias)), end)
  }

  /** What stands in parentheses: one test, or two with a word between them. */
  function ReadGroup(t: Sql): (r: Reading<Test>)
    ensures r.Read? ==> |r.rest| < |t| && FlatTest(r.x)
    decreases |t|, 5
  {
    match ReadTest(t)
    case Unreadable => Unreadable
    case Read(a, rest) =>
      if !Sees(rest) then Unreadable
      else if rest[0].key == Key.Close then Read(Grouped(a), rest[1..])
      else if rest[0].key.Connect? then
        match ReadTest(rest[1..])
        case Unreadable => Unreadable
        case Read(b, behind) =>
          match After(behind, Key.Close)
          case None => Unreadable
          case Some(end) => Read(Joint(rest[0].key.isAnd, a, b), end)
      else Unreadable
  }

  /** What is said of a term. */
  function ReadAbout(x: Term, t: Sql): (r: Reading<Test>)
    requires FlatTerm(x)
    ensures r.Read? ==> |r.rest| < |t| && FlatTest(r.x)
    decreases |t|, 5
  {
    if !Sees(t) then Unreadable
    else
      var k := t[0].key;
      if k.Compare? then
        match ReadTerm(t[1..]) case Unreadable => Unreadable case Read(y, end) => Read(Compared(x, k.cmp, y), end)
      else if k.IsNull? then Read(Nulled(x, k.negated), t[1..])
      else if k.Like? then
        match ReadTerm(t[1..]) case Unreadable => Unreadable case Read(y, end) => Read(Matched(x, y, k.negated), end)
      else if k.Between? then ReadRange(x, k.negated, t[1..])
      else if k.InOpen? then ReadIn(x, k.negated, t[1..])
      else Unreadable
  }

  /** Values, or a query. */
  function ReadIn(x: Term, negated: bool, t: Sql): (r: Reading<Test>)
    requires FlatTerm(x)
    ensures r.Read? ==> |r.rest| < |t| && FlatTest(r.x)
    decreases |t|, 10
  {
    if t != [] && t[0].Literal? then
      match ReadValues(t)
      case Unreadable => Unreadable
      case Read(vs, rest) =>
        match After(rest, Key.Close) case None => Unreadable case Some(end) => Read(Listed(x, vs, negated), end)
    else
      match ReadClosed(t) case Unreadable => Unreadable case Read(q, end) => Read(Selected(x, q, negated), end)
  }

  function ReadRange(x: Term, negated: bool, t: Sql): (r: Reading<Test>)
    requires FlatTerm(x)
    ensures r.Read? ==> |r.rest| < |t| && FlatTest(r.x)
    decreases |t|, 5
  {
    match ReadTerm(t)
    case Unreadable => Unreadable
    case Read(lower, rest) =>
      match After(rest, Key.Connect(true))
      case None => Unreadable
      case Some(u) =>
        match ReadTerm(u)
        case Unreadable => Unreadable
        case Read(upper, end) => Read(Ranged(x, lower, upper, negated), end)
  }

  function ReadTests(t: Sql): (r: Reading<seq<Test>>)
    ensures r.Read? ==> |r.rest| < |t| && forall i | 0 <= i < |r.x| :: FlatTest(r.x[i])
    decreases |t|, 5
  {
    match ReadTest(t)
    case Unreadable => Unreadable
    case Read(x, rest) =>
      match After(rest, Key.Connect(true))
      case None => Read([x], rest)
      case Some(u) => match ReadTests(u) case Unreadable => Unreadable case Read(more, end) => Read([x] + more, end)
  }

  // ----- statements

  function ReadItem(t: Sql): (r: Reading<Item>)
    ensures r.Read? ==> |r.rest| < |t| && FlatTerm(r.x.term)
    decreases |t|, 1
  {
    match ReadTerm(t)
    case Unreadable => Unreadable
    case Read(x, rest) =>
      match After(rest, Key.As)
      case None => Read(Item(x, None), rest)
      case Some(u) => match ReadName(u) case Unreadable => Unreadable case Read(a, end) => Read(Item(x, Some(a)), end)
  }

  function ReadItems(t: Sql): (r: Reading<seq<Item>>)
    ensures r.Read? ==> |r.rest| < |t| && forall i | 0 <= i < |r.x| :: FlatTerm(r.x[i].term)
    decreases |t|, 2
  {
    match ReadItem(t)
    case Unreadable => Unreadable
    case Read(x, rest) =>
      match After(rest, Key.Comma)
      case None => Read([x], rest)
      case Some(u) => match ReadItems(u) case Unreadable => Unreadable case Read(more, end) => Read([x] + more, end)
  }

  /** What is selected, up to FROM: whether without repeats, and the items, which may be none. */
  function ReadList(t: Sql): (r: Reading<(bool, seq<Item>)>)
    ensures r.Read? ==> |r.rest| < |t| && forall i | 0 <= i < |r.x.1| :: FlatTerm(r.x.1[i].term)
    decreases |t|, 3
  {
    match After(t, Key.Select)
    case None => Unreadable
    case Some(u) =>
      var distinct := Starts(u, Key.Distinctly);
      var v := if distinct then u[1..] else u;
      match (if Starts(v, Key.From) then Read([], v) else ReadItems(v))
      case Unreadable => Unreadable
      case Read(items, rest) =>
        match After(rest, Key.From) case None => Unreadable case Some(end) => Read((distinct, items), end)
  }

  function ReadOrigin(t: Sql): (r: Reading<Origin>)
    ensures r.Read? ==> |r.rest| < |t| && (r.x.Inner? ==> Flat(r.x.query))
    decreases |t|, 3
  {
    match After(t, Key.Open)
    case None =>
      (match ReadNamed(t)
       case Unreadable => Unreadable
       case Read((name, alias), rest) => Read(Named(name, alias), rest))
    case Some(u) =>
      match ReadStatement(u)
      case Unreadable => Unreadable
      case Read(q, rest) =>
        match After(rest, Key.CloseAs)
        case None => Unreadable
        case Some(v) =>
          match ReadName(v) case Unreadable => Unreadable case Read(alias, end) => Read(Inner(q, alias), end)
  }

  function ReadLink(t: Sql): (r: Reading<Link>)
    ensures r.Read? ==> |r.rest| < |t|
  {
    if !Sees(t) || !t[0].key.JoinOn? then Unreadable
    else
      match ReadNamed(t[1..])
      case Unreadable => Unreadable
      case Read((table, alias), rest) =>
        match After(rest, Key.On)
        case None => Unreadable
        case Some(u) =>
          match ReadColumn(u)
          case Unreadable => Unreadable
          case Read(a, more) =>
            match After(more, Key.Compare(Eq))
            case None => Unreadable
            case Some(v) =>
              match ReadColumn(v)
              case Unreadable => Unreadable
              case Read(b, end) => Read(Link(t[0].key.isLeft, table, alias, a, b), end)
  }

  /** The joins, which may be none. */
  function ReadLinks(t: Sql): (r: Reading<seq<Link>>)
    ensures r.Read? ==> |r.rest| <= |t|
    decreases |t|
  {
    if Sees(t) && t[0].key.JoinOn? then
      match ReadLink(t)
      case Unreadable => Unreadable
      case Read(x, rest) =>
        match ReadLinks(rest) case Unreadable => Unreadable case Read(more, end) => Read([x] + more, end)
    else Read([], t)
  }

  function ReadRestriction(t: Sql): (r: Reading<Restriction>)
    ensures r.Read? ==> |r.rest| <= |t| && FlatRestriction(r.x)
    decreases |t|, 6
  {
    if Starts(t, Key.Where) then
      match ReadTests(t[1..]) case Unreadable => Unreadable case Read(tests, end) => Read(OnlyIf(tests), end)
    else if Starts(t, Key.WhereOpen) then
      match ReadTest(t[1..])
      case Unreadable => Unreadable
      case Read(own, rest) =>
        match After(rest, Key.CloseAndOpen)
        case None => Unreadable
        case Some(u) =>
          match ReadTests(u)
          case Unreadable => Unreadable
          case Read(tests, behind) =>
            match After(behind, Key.Close) case None => Unreadable case Some(end) => Read(AlsoIf(own, tests), end)
    else Read(Unrestricted, t)
  }

  function ReadGroupBy(t: Sql): (r: Reading<seq<ColumnName>>)
    ensures r.Read? ==> |r.rest| <= |t|
  {
    if Starts(t, Key.GroupBy) then ReadColumns(t[1..]) else Read([], t)
  }

  function ReadGroupTest(t: Sql): (r: Reading<GroupTest>)
    ensures r.Read? ==> |r.rest| <= |t| && (r.x.GroupTest? ==> FlatTest(r.x.test))
    decreases |t|, 6
  {
    if Starts(t, Key.Having) then
      match ReadTest(t[1..]) case Unreadable => Unreadable case Read(x, end) => Read(GroupTest(x), end)
    else Read(NoGroupTest, t)
  }

  /** A statement without what belongs to the whole. */
  function ReadCore(t: Sql): (r: Reading<Statement>)
    ensures r.Read? ==> |r.rest| < |t| && Flat(r.x) && IsOperand(r.x)
    decreases |t|, 7
  {
    match ReadList(t)
    case Unreadable => Unreadable
    case Read((distinct, items), u0) =>
      match ReadOrigin(u0)
      case Unreadable => Unreadable
      case Read(origin, u1) =>
        match ReadLinks(u1)
        case Unreadable => Unreadable
        case Read(links, u2) =>
          match ReadRestriction(u2)
          case Unreadable => Unreadable
          case Read(restriction, u3) =>
            match ReadGroupBy(u3)
            case Unreadable => Unreadable
            case Read(groupBy, u4) =>
              match ReadGroupTest(u4)
              case Unreadable => Unreadable
              case Read(groupTest, end) =>
                Read(Statement(false, [], distinct, items, origin, links, restriction, groupBy, groupTest, [], [],
                               None, None),
                     end)
  }

  function ReadCommon(t: Sql): (r: Reading<Common>)
    ensures r.Read? ==> |r.rest| < |t| && Flat(r.x.query)
    decreases |t|, 10
  {
    match ReadName(t)
    case Unreadable => Unreadable
    case Read(name, rest) =>
      match ReadCommonColumns(rest)
      case Unreadable => Unreadable
      case Read(columns, u) =>
        match After(u, Key.AsOpen)
        case None => Unreadable
        case Some(v) =>
          match ReadClosed(v) case Unreadable => Unreadable case Read(q, end) => Read(Common(name, columns, q), end)
  }

  function ReadCommonColumns(t: Sql): (r: Reading<seq<string>>)
    ensures r.Read? ==> |r.rest| <= |t|
  {
    match After(t, Key.ListOpen)
    case None => Read([], t)
    case Some(u) =>
      match ReadNames(u)
      case Unreadable => Unreadable
      case Read(names, rest) => match After(rest, Key.Close) case None => Unreadable case Some(end) => Read(names, end)
  }

  function ReadCommons(t: Sql): (r: Reading<seq<Common>>)
    ensures r.Read? ==> |r.rest| < |t| && forall i | 0 <= i < |r.x| :: Flat(r.x[i].query)
    decreases |t|, 11
  {
    match ReadCommon(t)
    case Unreadable => Unreadable
    case Read(x, rest) =>
      match After(rest, Key.Comma)
      case None => Read([x], rest)
      case Some(u) => match ReadCommons(u) case Unreadable => Unreadable case Read(more, end) => Read([x] + more, end)
  }

  /** The common table expressions, which may be none, and whether they are recursive. */
  function ReadWith(t: Sql): (r: Reading<(bool, seq<Common>)>)
    ensures r.Read? ==> |r.rest| <= |t| && forall i | 0 <= i < |r.x.1| :: Flat(r.x.1[i].query)
    decreases |t|, 5
  {
    if !Sees(t) || !t[0].key.With? then Read((false, []), t)
    else
      match ReadCommons(t[1..])
      case Unreadable => Unreadable
      case Read(commons, rest) =>
        match After(rest, Key.Space) case None => Unreadable case Some(end) => Read((t[0].key.recursive, commons), end)
  }

  /** The other operands of set operations, which may be none. */
  function ReadFurther(t: Sql): (r: Reading<seq<Further>>)
    ensures r.Read? ==> |r.rest| <= |t| && forall i | 0 <= i < |r.x| :: IsOperand(r.x[i].query) && Flat(r.x[i].query)
    decreases |t|, 5
  {
    if !Sees(t) || !t[0].key.Combine? then Read([], t)
    else
      match ReadCore(t[1..])
      case Unreadable => Unreadable
      case Read(q, rest) =>
        match ReadFurther(rest)
        case Unreadable => Unreadable
        case Read(more, end) => Read([Further(t[0].key.setop, q)] + more, end)
  }

  function ReadOrderBy(t: Sql): (r: Reading<seq<Ordering>>)
    ensures r.Read? ==> |r.rest| <= |t|
  {
    if Starts(t, Key.OrderBy) then ReadOrderings(t[1..]) else Read([], t)
  }

  function ReadLimit(t: Sql): (r: (Option<nat>, Sql))
    ensures |r.1| <= |t|
  {
    if Sees(t) && t[0].key.Limit? then (Some(t[0].key.rows), t[1..]) else (None, t)
  }

  function ReadOffset(t: Sql): (r: (Option<nat>, Sql))
    ensures |r.1| <= |t|
  {
    if Sees(t) && t[0].key.Offset? then (Some(t[0].key.rows), t[1..]) else (None, t)
  }

  function ReadStatement(t: Sql): (r: Reading<Statement>)
    ensures r.Read? ==> |r.rest| < |t| && Flat(r.x)
    decreases |t|, 8
  {
    match ReadWith(t)
    case Unreadable => Unreadable
    case Read((recursive, commons), u0) =>
      match ReadCore(u0)
      case Unreadable => Unreadable
      case Read(q, u1) =>
        match ReadFurther(u1)
        case Unreadable => Unreadable
        case Read(further, u2) =>
          match ReadOrderBy(u2)
          case Unreadable => Unreadable
          case Read(orderings, u3) =>
            var (limit, u4) := ReadLimit(u3);
            var (offset, end) := ReadOffset(u4);
            Read(q.(recursive := recursive, commons := commons, further := further, orderings := orderings,
                    limit := limit, offset := offset), end)
  }
}
