/** The inline text of a query, read word by word, is what the query means. */
module QueryReading {
  import opened Wrappers
  import opened Values
  import opened Tokens
  import opened SqlWords
  import opened Queries
  import opened SqlReader
  import opened QueryMeaning
  import opened QuerySoundness
  import opened ReaderSteps
  import opened ReadingParts

  // ----- terms

  lemma {:induction false} ReadsScalar(s: Scalar, aliases: Aliases, rest: Sql)
    requires SoundScalar(s, aliases) && FlatTerm(MeantScalar(s, aliases)) && !Starts(rest, Key.Dot)
    ensures InlineScalar(s, aliases).Some?
    ensures ReadTerm(InlineScalar(s, aliases).value + rest) == Read(MeantScalar(s, aliases), rest)
    decreases s, 1
  {
    hide ReadTerm, ReadTerms, ReadCall, ReadOver, ReadArgs, ReadChosen, ReadChoices, AggregateSql, ColumnSql,
         WindowTail;
    ScalarExists(s, aliases);
    match s
    case Column(c) => ReadsColumn(c, aliases, rest);
    case Constant(v) => ReadsGiven(v, rest);
    case Arithmetic(left, op, right) =>
      var l, r := InlineScalar(left, aliases).value, InlineScalar(right, aliases).value;
      var u, v := W(Key.Calculate(op)) + (r + (W(Key.Close) + rest)), W(Key.Close) + rest;
      Pair5(W(Key.Open), l, W(Key.Calculate(op)), r, W(Key.Close), rest);
      Starting(Key.Open, l + u);
      Starting(Key.Calculate(op), r + v);
      Starting(Key.Close, rest);
      ReadsScalar(left, aliases, u);
      ReadsScalar(right, aliases, v);
      StepCalculated(W(Key.Open) + (l + u), MeantScalar(left, aliases), u, op, MeantScalar(right, aliases), v);
    case Aggregate(kind, column, distinct) => ReadsAggregate(s, aliases, rest);
    case Function(name, args) =>
      var list, v := InlineArgs(args, aliases, true).value, W(Key.Close) + rest;
      Around3(W(Key.Call(name)), list, W(Key.Close), rest);
      Starting(Key.Call(name), list + v);
      Starting(Key.Close, rest);
      ReadsArgs(args, aliases, v);
      StepCall(W(Key.Call(name)) + (list + v), name, MeantScalars(args, aliases), v);
    case Case(_, _) => ReadsCase(s, aliases, rest);
    case Window(name, args, partitionBy, windowOrder) =>
      var list, tail := InlineArgs(args, aliases, true).value, WindowTail(partitionBy, windowOrder, aliases).value;
      var v := W(Key.OverOpen) + (tail + rest);
      Pair5(W(Key.Call(name)), list, W(Key.OverOpen), tail, [], rest);
      Nothing(rest);
      Starting(Key.Call(name), list + v);
      Starting(Key.OverOpen, tail + rest);
      ReadsArgs(args, aliases, v);
      StepCall(W(Key.Call(name)) + (list + v), name, MeantScalars(args, aliases), v);
      ReadsOver(name, MeantScalars(args, aliases), partitionBy, windowOrder, aliases, rest);
  }

  lemma {:induction false} ReadsScalars(args: seq<Scalar>, aliases: Aliases, rest: Sql)
    requires args != [] && SoundScalars(args, aliases) && EndsColumns(rest)
    requires forall i | 0 <= i < |args| :: FlatTerm(MeantScalars(args, aliases)[i])
    ensures InlineArgs(args, aliases, true).Some?
    ensures ReadTerms(InlineArgs(args, aliases, true).value + rest) == Read(MeantScalars(args, aliases), rest)
    decreases args, 1
  {
    hide ReadTerm, ReadTerms, InlineScalar, MeantScalar, SoundScalar, Separator, FlatTerm;
    var more := args[1..];
    ScalarsExist(args, aliases, true);
    ScalarsExist(more, aliases, false);
    ScalarsExist(more, aliases, true);
    assert MeantScalars(args, aliases) == [MeantScalar(args[0], aliases)] + MeantScalars(more, aliases);
    FlatTermsParts(MeantScalar(args[0], aliases), MeantScalars(more, aliases));
    var x, y := InlineScalar(args[0], aliases).value, InlineArgs(more, aliases, false).value;
    OfList(Key.Comma, x, y, rest);
    if more == [] {
      Nothing(rest);
      ReadsScalar(args[0], aliases, rest);
      assert MeantScalars(args, aliases) == [MeantScalar(args[0], aliases)];
      StepTerms(x + rest, MeantScalar(args[0], aliases), rest);
    } else {
      OfList(Key.Comma, InlineScalar(more[0], aliases).value, InlineArgs(more[1..], aliases, false).value, rest);
      Starting(Key.Comma, InlineArgs(more, aliases, true).value + rest);
      ReadsScalar(args[0], aliases, y + rest);
      ReadsScalars(more, aliases, rest);
      StepTerms(x + (y + rest), MeantScalar(args[0], aliases), y + rest);
    }
  }

  lemma {:induction false} ReadsArgs(args: seq<Scalar>, aliases: Aliases, rest: Sql)
    requires SoundScalars(args, aliases) && (Starts(rest, Key.Close) || Starts(rest, Key.OverOpen))
    requires forall i | 0 <= i < |args| :: FlatTerm(MeantScalars(args, aliases)[i])
    ensures InlineArgs(args, aliases, true).Some?
    ensures ReadArgs(InlineArgs(args, aliases, true).value + rest) == Read(MeantScalars(args, aliases), rest)
    ensures !Starts(InlineArgs(args, aliases, true).value + rest, Key.Distinctly)
    ensures !Starts(InlineArgs(args, aliases, true).value + rest, Key.Star)
    decreases args, 2
  {
    hide ReadTerm, ReadTerms, ReadArgs, FlatTerm;
    ScalarsExist(args, aliases, true);
    var t := InlineArgs(args, aliases, true).value + rest;
    if args == [] {
      Nothing(rest);
    } else {
      ReadsScalars(args, aliases, rest);
      TermsBegin(t);
    }
    StepArgs(t);
  }

  // ----- CASE

  predicate EndsBranch(rest: Sql) {
    Starts(rest, Key.CaseWhen) || Starts(rest, Key.CaseElse) || Starts(rest, Key.CaseEnd)
  }

  lemma {:induction false} ReadsCase(s: Scalar, aliases: Aliases, rest: Sql)
    requires s.Case? && SoundScalar(s, aliases) && FlatTerm(MeantScalar(s, aliases))
    ensures InlineScalar(s, aliases).Some?
    ensures ReadTerm(InlineScalar(s, aliases).value + rest) == Read(MeantScalar(s, aliases), rest)
    decreases s, 0
  {
    hide ReadTerm, ReadChoices, InlineBranches, MeantBranches, SoundBranches;
    ScalarExists(s, aliases);
    var Case(branches, otherwise) := s;
    var bs, z := InlineBranches(branches, aliases).value, W(Key.CaseEnd) + rest;
    Starting(Key.CaseEnd, rest);
    Nothing(z);
    match otherwise
    case NoElse =>
      Pair5(W(Key.CaseBegin), bs, [], [], W(Key.CaseEnd), rest);
      Starting(Key.CaseBegin, bs + z);
      ReadsBranches(branches, aliases, z);
      StepChosen(W(Key.CaseBegin) + (bs + z), MeantBranches(branches, aliases), z);
    case Else(e) =>
      var x := InlineScalar(e, aliases).value;
      var u := W(Key.CaseElse) + (x + z);
      Pair5(W(Key.CaseBegin), bs, [], W(Key.CaseElse) + x + [], W(Key.CaseEnd), rest);
      Around3(W(Key.CaseElse), x, [], z);
      Nothing(u);
      Starting(Key.CaseBegin, bs + u);
      Starting(Key.CaseElse, x + z);
      ReadsBranches(branches, aliases, u);
      ReadsScalar(e, aliases, z);
      StepChosen(W(Key.CaseBegin) + (bs + u), MeantBranches(branches, aliases), u);
  }

  lemma {:induction false} ReadsBranch(b: Branch, aliases: Aliases, rest: Sql)
    requires SoundBranch(b, aliases) && EndsBranch(rest)
    requires FlatTest(MeantBranch(b, aliases).test) && FlatTerm(MeantBranch(b, aliases).result)
    ensures InlineBranch(b, aliases).Some?
    ensures ReadChoice(InlineBranch(b, aliases).value + rest) == Read(MeantBranch(b, aliases), rest)
    ensures Starts(InlineBranch(b, aliases).value + rest, Key.CaseWhen)
    decreases b, 1
  {
    hide ReadTerm, ReadTest, ReadChoice, InlineExpr, InlineScalar, MeantExpr, MeantScalar;
    BranchExists(b, aliases);
    var c, x := InlineExpr(b.condition, aliases).value, InlineScalar(b.result, aliases).value;
    var u := W(Key.CaseThen) + (x + rest);
    Pair5(W(Key.CaseWhen), c, W(Key.CaseThen), x, [], rest);
    Nothing(rest);
    Starting(Key.CaseWhen, c + u);
    Starting(Key.CaseThen, x + rest);
    ReadsExpr(b.condition, aliases, u);
    ReadsScalar(b.result, aliases, rest);
    StepChoice(W(Key.CaseWhen) + (c + u), MeantExpr(b.condition, aliases), u, MeantScalar(b.result, aliases), rest);
  }

  lemma {:induction false} ReadsBranches(bs: seq<Branch>, aliases: Aliases, rest: Sql)
    requires bs != [] && SoundBranches(bs, aliases) && (Starts(rest, Key.CaseElse) || Starts(rest, Key.CaseEnd))
    requires forall i | 0 <= i < |bs| ::
               FlatTest(MeantBranches(bs, aliases)[i].test) && FlatTerm(MeantBranches(bs, aliases)[i].result)
    ensures InlineBranches(bs, aliases).Some?
    ensures ReadChoices(InlineBranches(bs, aliases).value + rest) == Read(MeantBranches(bs, aliases), rest)
    ensures Starts(InlineBranches(bs, aliases).value + rest, Key.CaseWhen)
    decreases bs, 2
  {
    hide ReadChoice, ReadChoices, InlineBranch, MeantBranch, SoundBranch, FlatTerm, FlatTest;
    var more := bs[1..];
    BranchesExist(bs, aliases);
    BranchesExist(more, aliases);
    assert MeantBranches(bs, aliases) == [MeantBranch(bs[0], aliases)] + MeantBranches(more, aliases);
    FlatChoicesParts(MeantBranch(bs[0], aliases), MeantBranches(more, aliases));
    var x, y := InlineBranch(bs[0], aliases).value, InlineBranches(more, aliases).value;
    Pair5([], x, [], y, [], rest);
    Nothing(rest);
    Nothing(y + rest);
    Nothing(x + (y + rest));
    if more == [] {
      ReadsBranch(bs[0], aliases, rest);
      assert MeantBranches(bs, aliases) == [MeantBranch(bs[0], aliases)];
      StepChoices(x + rest, MeantBranch(bs[0], aliases), rest);
    } else {
      ReadsBranches(more, aliases, rest);
      ReadsBranch(bs[0], aliases, y + rest);
      StepChoices(x + (y + rest), MeantBranch(bs[0], aliases), y + rest);
    }
  }

  // ----- tests

  lemma {:induction false} ReadsExpr(e: Expr, aliases: Aliases, rest: Sql)
    requires SoundExpr(e, aliases) && FlatTest(MeantExpr(e, aliases)) && !Starts(rest, Key.Dot)
    ensures InlineExpr(e, aliases).Some?
    ensures ReadTest(InlineExpr(e, aliases).value + rest) == Read(MeantExpr(e, aliases), rest)
    ensures NoSum(InlineExpr(e, aliases).value + rest)
    decreases e, 3
  {
    hide *;
    match e
    case Comparison(_, _, _) => ReadsComparison(e, aliases, rest);
    case NullCheck(_, _) => ReadsNullCheck(e, aliases, rest);
    case Like(_, _, _) => ReadsLike(e, aliases, rest);
    case Between(_, _, _, _) => ReadsBetween(e, aliases, rest);
    case InValues(_, _, _) => ReadsInValues(e, aliases, rest);
    case InSubquery(_, _, _) => ReadsInSubquery(e, aliases, rest);
    case Exists(_, _) => ReadsExists(e, aliases, rest);
    case Logical(_, _, _) => ReadsLogical(e, aliases, rest);
    case Not(_) => ReadsNot(e, aliases, rest);
  }

  lemma {:induction false} ReadsComparison(e: Expr, aliases: Aliases, rest: Sql)
    requires e.Comparison? && SoundExpr(e, aliases) && FlatTest(MeantExpr(e, aliases)) && !Starts(rest, Key.Dot)
    ensures InlineExpr(e, aliases).Some?
    ensures ReadTest(InlineExpr(e, aliases).value + rest) == Read(MeantExpr(e, aliases), rest)
    ensures NoSum(InlineExpr(e, aliases).value + rest)
    decreases e, 2
  {
    hide ReadTerm, ReadTest, ReadAbout, NoSum, InlineScalar, MeantScalar, SoundScalar, FlatTerm;
    ExprExists(e, aliases);
    var Comparison(left, op, right) := e;
    var x, y := InlineScalar(left, aliases).value, InlineScalar(right, aliases).value;
    var u := W(Key.Compare(op)) + (y + rest);
    Pair5([], x, W(Key.Compare(op)), y, [], rest);
    Nothing(rest);
    Nothing(x + u);
    Starting(Key.Compare(op), y + rest);
    ReadsScalar(left, aliases, u);
    ReadsScalar(right, aliases, rest);
    StepCompared(MeantScalar(left, aliases), u, op, MeantScalar(right, aliases), rest);
    AboutReads(x + u, MeantScalar(left, aliases), u, MeantExpr(e, aliases), rest);
  }

  lemma {:induction false} ReadsNullCheck(e: Expr, aliases: Aliases, rest: Sql)
    requires e.NullCheck? && SoundExpr(e, aliases) && FlatTest(MeantExpr(e, aliases)) && !Starts(rest, Key.Dot)
    ensures InlineExpr(e, aliases).Some?
    ensures ReadTest(InlineExpr(e, aliases).value + rest) == Read(MeantExpr(e, aliases), rest)
    ensures NoSum(InlineExpr(e, aliases).value + rest)
    decreases e, 2
  {
    hide ReadTerm, ReadTest, ReadAbout, NoSum, InlineScalar, MeantScalar, SoundScalar, FlatTerm;
    ExprExists(e, aliases);
    var NullCheck(operand, negated) := e;
    var x, u := InlineScalar(operand, aliases).value, W(Key.IsNull(negated)) + rest;
    Around3([], x, W(Key.IsNull(negated)), rest);
    Nothing(x + u);
    Starting(Key.IsNull(negated), rest);
    ReadsScalar(operand, aliases, u);
    StepNulled(MeantScalar(operand, aliases), u, negated);
    AboutReads(x + u, MeantScalar(operand, aliases), u, MeantExpr(e, aliases), rest);
  }

  lemma {:induction false} ReadsLike(e: Expr, aliases: Aliases, rest: Sql)
    requires e.Like? && SoundExpr(e, aliases) && FlatTest(MeantExpr(e, aliases)) && !Starts(rest, Key.Dot)
    ensures InlineExpr(e, aliases).Some?
    ensures ReadTest(InlineExpr(e, aliases).value + rest) == Read(MeantExpr(e, aliases), rest)
    ensures NoSum(InlineExpr(e, aliases).value + rest)
    decreases e, 2
  {
    hide ReadTerm, ReadTest, ReadAbout, NoSum, InlineScalar, MeantScalar, SoundScalar, FlatTerm;
    ExprExists(e, aliases);
    var Like(operand, pattern, negated) := e;
    var x, y := InlineScalar(operand, aliases).value, InlineScalar(pattern, aliases).value;
    var u := W(Key.Like(negated)) + (y + rest);
    Pair5([], x, W(Key.Like(negated)), y, [], rest);
    Nothing(rest);
    Nothing(x + u);
    Starting(Key.Like(negated), y + rest);
    ReadsScalar(operand, aliases, u);
    ReadsScalar(pattern, aliases, rest);
    StepMatched(MeantScalar(operand, aliases), u, negated, MeantScalar(pattern, aliases), rest);
    AboutReads(x + u, MeantScalar(operand, aliases), u, MeantExpr(e, aliases), rest);
  }

  lemma {:induction false} ReadsBetween(e: Expr, aliases: Aliases, rest: Sql)
    requires e.Between? && SoundExpr(e, aliases) && FlatTest(MeantExpr(e, aliases)) && !Starts(rest, Key.Dot)
    ensures InlineExpr(e, aliases).Some?
    ensures ReadTest(InlineExpr(e, aliases).value + rest) == Read(MeantExpr(e, aliases), rest)
    ensures NoSum(InlineExpr(e, aliases).value + rest)
    decreases e, 2
  {
    hide ReadTerm, ReadTest, ReadAbout, NoSum, InlineScalar, MeantScalar, SoundScalar, FlatTerm;
    ExprExists(e, aliases);
    var Between(operand, lower, upper, negated) := e;
    var x, l, h := InlineScalar(operand, aliases).value, InlineScalar(lower, aliases).value,
                   InlineScalar(upper, aliases).value;
    var v := W(Key.Connect(true)) + (h + rest);
    var u := W(Key.Between(negated)) + (l + v);
    RangeText(x, negated, l, h, rest);
    Starting(Key.Between(negated), l + v);
    Starting(Key.Connect(true), h + rest);
    ReadsScalar(operand, aliases, u);
    ReadsScalar(lower, aliases, v);
    ReadsScalar(upper, aliases, rest);
    StepRanged(MeantScalar(operand, aliases), u, negated, MeantScalar(lower, aliases), v, MeantScalar(upper, aliases),
               rest);
    AboutReads(x + u, MeantScalar(operand, aliases), u, MeantExpr(e, aliases), rest);
  }

  lemma {:induction false} ReadsInValues(e: Expr, aliases: Aliases, rest: Sql)
    requires e.InValues? && SoundExpr(e, aliases) && FlatTest(MeantExpr(e, aliases)) && !Starts(rest, Key.Dot)
    ensures InlineExpr(e, aliases).Some?
    ensures ReadTest(InlineExpr(e, aliases).value + rest) == Read(MeantExpr(e, aliases), rest)
    ensures NoSum(InlineExpr(e, aliases).value + rest)
    decreases e, 2
  {
    hide ReadTerm, ReadTest, ReadAbout, ReadValues, NoSum, InlineScalar, MeantScalar, SoundScalar, FlatTerm,
         LiteralList;
    ExprExists(e, aliases);
    var InValues(operand, values, negated) := e;
    if values == [] {
      Starting(Key.Truth(negated), rest);
      StepSettled(W(Key.Truth(negated)) + rest, negated);
    } else {
      var x, list, v := InlineScalar(operand, aliases).value, LiteralList(values, true), W(Key.Close) + rest;
      var u := W(Key.InOpen(negated)) + (list + v);
      Pair5([], x, W(Key.InOpen(negated)), list, W(Key.Close), rest);
      Nothing(x + u);
      Starting(Key.InOpen(negated), list + v);
      Starting(Key.Close, rest);
      ReadsScalar(operand, aliases, u);
      ReadsValues(values, v);
      StepListed(MeantScalar(operand, aliases), u, negated, values, v);
      AboutReads(x + u, MeantScalar(operand, aliases), u, MeantExpr(e, aliases), rest);
    }
  }

  lemma {:induction false} ReadsInSubquery(e: Expr, aliases: Aliases, rest: Sql)
    requires e.InSubquery? && SoundExpr(e, aliases) && FlatTest(MeantExpr(e, aliases)) && !Starts(rest, Key.Dot)
    ensures InlineExpr(e, aliases).Some?
    ensures ReadTest(InlineExpr(e, aliases).value + rest) == Read(MeantExpr(e, aliases), rest)
    ensures NoSum(InlineExpr(e, aliases).value + rest)
    decreases e, 2
  {
    hide ReadTerm, ReadTest, ReadAbout, ReadClosed, ReadStatement, NoSum, InlineScalar, MeantScalar, SoundScalar,
         FlatTerm, InlineSelect, MeantSelect, Sound, Flat;
    ExprExists(e, aliases);
    var InSubquery(operand, query, negated) := e;
    var x, q, v := InlineScalar(operand, aliases).value, InlineSelect(query, "", None).value, W(Key.Close) + rest;
    var u := W(Key.InOpen(negated)) + (q + v);
    Pair5([], x, W(Key.InOpen(negated)), q, W(Key.Close), rest);
    Nothing(x + u);
    Starting(Key.InOpen(negated), q + v);
    Starting(Key.Close, rest);
    ReadsScalar(operand, aliases, u);
    ReadsSelect(query, "", None, v);
    StatementBegins(q + v);
    StepClosed(q + v, MeantSelect(query, "", None), v);
    StepSelected(MeantScalar(operand, aliases), u, negated, MeantSelect(query, "", None), rest);
    AboutReads(x + u, MeantScalar(operand, aliases), u, MeantExpr(e, aliases), rest);
  }

  lemma {:induction false} ReadsExists(e: Expr, aliases: Aliases, rest: Sql)
    requires e.Exists? && SoundExpr(e, aliases) && FlatTest(MeantExpr(e, aliases))
    ensures InlineExpr(e, aliases).Some?
    ensures ReadTest(InlineExpr(e, aliases).value + rest) == Read(MeantExpr(e, aliases), rest)
    ensures NoSum(InlineExpr(e, aliases).value + rest)
    decreases e, 2
  {
    hide ReadTerm, ReadTest, ReadClosed, ReadStatement, NoSum, InlineSelect, MeantSelect, Sound, Flat;
    ExprExists(e, aliases);
    var Exists(query, negated) := e;
    var q, v := InlineSelect(query, "", None).value, W(Key.Close) + rest;
    Around3(W(Key.Exists(negated)), q, W(Key.Close), rest);
    Starting(Key.Exists(negated), q + v);
    Starting(Key.Close, rest);
    ReadsSelect(query, "", None, v);
    StepClosed(q + v, MeantSelect(query, "", None), v);
    StepFound(W(Key.Exists(negated)) + (q + v), negated, MeantSelect(query, "", None), rest);
  }

  lemma {:induction false} ReadsLogical(e: Expr, aliases: Aliases, rest: Sql)
    requires e.Logical? && SoundExpr(e, aliases) && FlatTest(MeantExpr(e, aliases))
    ensures InlineExpr(e, aliases).Some?
    ensures ReadTest(InlineExpr(e, aliases).value + rest) == Read(MeantExpr(e, aliases), rest)
    ensures NoSum(InlineExpr(e, aliases).value + rest)
    decreases e, 2
  {
    hide ReadTerm, ReadTest, ReadGroup, NoSum;
    ExprExists(e, aliases);
    var Logical(isAnd, first, second) := e;
    ExprExists(first, aliases);
    ExprExists(second, aliases);
    var x, y, v := InlineExpr(first, aliases).value, InlineExpr(second, aliases).value, W(Key.Close) + rest;
    var u := W(Key.Connect(isAnd)) + (y + v);
    Pair5(W(Key.Open), x, W(Key.Connect(isAnd)), y, W(Key.Close), rest);
    Starting(Key.Open, x + u);
    Starting(Key.Connect(isAnd), y + v);
    Starting(Key.Close, rest);
    ReadsExpr(first, aliases, u);
    ReadsExpr(second, aliases, v);
    StepGroup(W(Key.Open) + (x + u));
    StepJoint(x + u, MeantExpr(first, aliases), u, isAnd, MeantExpr(second, aliases), v);
  }

  lemma {:induction false} ReadsNot(e: Expr, aliases: Aliases, rest: Sql)
    requires e.Not? && SoundExpr(e, aliases) && FlatTest(MeantExpr(e, aliases))
    ensures InlineExpr(e, aliases).Some?
    ensures ReadTest(InlineExpr(e, aliases).value + rest) == Read(MeantExpr(e, aliases), rest)
    ensures NoSum(InlineExpr(e, aliases).value + rest)
    decreases e, 2
  {
    hide ReadTerm, ReadTest, NoSum;
    ExprExists(e, aliases);
    ExprExists(e.inner, aliases);
    var x, v := InlineExpr(e.inner, aliases).value, W(Key.Close) + rest;
    Around3(W(Key.NotOpen), x, W(Key.Close), rest);
    Starting(Key.NotOpen, x + v);
    Starting(Key.Close, rest);
    ReadsExpr(e.inner, aliases, v);
    StepOpposite(W(Key.NotOpen) + (x + v), MeantExpr(e.inner, aliases), v);
  }

  // ----- what is selected

  lemma {:induction false} ReadsProjection(p: Projection, aliases: Aliases, rest: Sql)
    requires SoundProjection(p, aliases) && FlatTerm(MeantProjection(p, aliases).term)
    requires !Starts(rest, Key.Dot) && !Starts(rest, Key.As)
    ensures InlineProjection(p, aliases).Some?
    ensures ReadItem(InlineProjection(p, aliases).value + rest) == Read(MeantProjection(p, aliases), rest)
    decreases p, 5
  {
    hide ReadTerm, ReadItem, InlineScalar, MeantScalar, SoundScalar, FlatTerm;
    ProjectionExists(p, aliases);
    ScalarExists(p.expression, aliases);
    var x := InlineScalar(p.expression, aliases).value;
    match p.alias
    case None =>
      Around3([], x, [], rest);
      Nothing(rest);
      Nothing(x + rest);
      ReadsScalar(p.expression, aliases, rest);
      StepItem(x + rest, MeantScalar(p.expression, aliases), rest);
    case Some(a) =>
      var u := W(Key.As) + ([Name(a)] + rest);
      AliasText(x, a, rest);
      Starting(Key.As, [Name(a)] + rest);
      ReadsName(a, rest);
      ReadsScalar(p.expression, aliases, u);
      StepItem(x + u, MeantScalar(p.expression, aliases), u);
  }

  lemma {:induction false} ReadsProjections(ps: seq<Projection>, aliases: Aliases, rest: Sql)
    requires ps != [] && SoundProjections(ps, aliases) && Starts(rest, Key.From)
    requires forall i | 0 <= i < |ps| :: FlatTerm(MeantProjections(ps, aliases)[i].term)
    ensures InlineProjections(ps, aliases, true).Some?
    ensures ReadItems(InlineProjections(ps, aliases, true).value + rest) == Read(MeantProjections(ps, aliases), rest)
    decreases ps, 6
  {
    hide ReadItem, ReadItems, InlineProjection, MeantProjection, SoundProjection, Separator, FlatTerm;
    var more := ps[1..];
    ProjectionsExist(ps, aliases, true);
    ProjectionsExist(more, aliases, false);
    ProjectionsExist(more, aliases, true);
    assert MeantProjections(ps, aliases) == [MeantProjection(ps[0], aliases)] + MeantProjections(more, aliases);
    FlatItemsParts(MeantProjection(ps[0], aliases), MeantProjections(more, aliases));
    var x, y := InlineProjection(ps[0], aliases).value, InlineProjections(more, aliases, false).value;
    OfList(Key.Comma, x, y, rest);
    if more == [] {
      Nothing(rest);
      ReadsProjection(ps[0], aliases, rest);
      assert MeantProjections(ps, aliases) == [MeantProjection(ps[0], aliases)];
      StepItems(x + rest, MeantProjection(ps[0], aliases), rest);
    } else {
      OfList(Key.Comma, InlineProjection(more[0], aliases).value, InlineProjections(more[1..], aliases, false).value,
             rest);
      Starting(Key.Comma, InlineProjections(more, aliases, true).value + rest);
      ReadsProjection(ps[0], aliases, y + rest);
      ReadsProjections(more, aliases, rest);
      StepItems(x + (y + rest), MeantProjection(ps[0], aliases), y + rest);
    }
  }

  lemma {:induction false} ReadsList(q: Select, rootAlias: string, aliases: Aliases, rest: Sql)
    requires SoundProjections(q.projections, aliases)
    requires forall i | 0 <= i < |MeantItems(q, rootAlias, aliases)| ::
               FlatTerm(MeantItems(q, rootAlias, aliases)[i].term)
    ensures SelectList(q, rootAlias, aliases).Some?
    ensures ReadList(SelectList(q, rootAlias, aliases).value + rest)
         == Read((q.distinct, MeantItems(q, rootAlias, aliases)), rest)
    decreases q, 5
  {
    hide ReadItems, ReadList, InlineProjections, MeantProjections, SoundProjections, RootColumns, RootItems, FlatTerm;
    ProjectionsExist(q.projections, aliases, true);
    var u := W(Key.From) + rest;
    Starting(Key.From, rest);
    var x := if q.projections == [] then RootColumns(q.columns, rootAlias, true)
             else InlineProjections(q.projections, aliases, true).value;
    if q.projections != [] {
      assert MeantItems(q, rootAlias, aliases) == MeantProjections(q.projections, aliases);
      ReadsProjections(q.projections, aliases, u);
    } else if q.columns != [] {
      ReadsRootColumns(q.columns, rootAlias, u);
    } else {
      NoRootColumns(rootAlias);
      Nothing(u);
    }
    ItemsBegin(x + u);
    ListText(q.distinct, x, rest);
    ListReads(SelectList(q, rootAlias, aliases).value + rest, q.distinct, x + u, MeantItems(q, rootAlias, aliases), u);
  }

  // ----- where it comes from

  lemma {:induction false} ReadsOrigin(q: Select, rootAlias: string, rest: Sql)
    requires SoundOrigin(q.source) && Later(rest, 1)
    requires MeantOrigin(q, rootAlias).Inner? ==> Flat(MeantOrigin(q, rootAlias).query)
    ensures InlineSource(q, rootAlias).Some?
    ensures ReadOrigin(InlineSource(q, rootAlias).value + rest) == Read(MeantOrigin(q, rootAlias), rest)
    decreases q, 5
  {
    hide ReadOrigin, ReadStatement, ReadNamed, InlineSelect, MeantSelect, Sound, Flat;
    SourceExists(q, rootAlias);
    LaterIs(rest, 1);
    match q.source
    case From(name) =>
      var alias := if rootAlias == "" then None else Some(rootAlias);
      ReadsNamed(name, alias, rest);
      Nothing([Name(name)]);
      assert [Name(name)] + (W(Key.As) + [Name(rootAlias)]) == [Name(name)] + W(Key.As) + [Name(rootAlias)];
      assert InlineSource(q, rootAlias).value == NamedText(name, alias);
      StepNamed(NamedText(name, alias) + rest, name, alias, rest);
    case Derived(alias, query) =>
      var called := if rootAlias == "" then alias else rootAlias;
      var t, u := InlineSelect(query, "", None).value, W(Key.CloseAs) + ([Name(called)] + rest);
      DerivedText(t, called, rest);
      Starting(Key.Open, t + u);
      Starting(Key.CloseAs, [Name(called)] + rest);
      ReadsName(called, rest);
      ReadsSelect(query, "", None, u);
      StepInner(W(Key.Open) + (t + u), MeantSelect(query, "", None), u, called, rest);
  }

  // ----- conditions

  lemma {:induction false} ReadsFilter(f: Filter, rootAlias: string, rest: Sql)
    requires SoundFilter(f, rootAlias) && FlatTest(MeantFilter(f, rootAlias))
    ensures InlineFilter(f, rootAlias).Some?
    ensures ReadTest(InlineFilter(f, rootAlias).value + rest) == Read(MeantFilter(f, rootAlias), rest)
    decreases f, 1
  {
    hide ReadTest, ReadGroup, ReadClosed, ReadStatement, NoSum, InlineSelect, MeantSelect, Sound, Flat, FilterOpening,
         FilterClosing;
    FilterExists(f, rootAlias);
    var alias, extra := rootAlias + "_rel", Some(Extra(f.relation, rootAlias));
    var t, p := InlineSelect(f.child, alias, extra).value, MeantSelect(f.child, alias, extra);
    FilterText(f.negated, t, rest);
    var y := W(Key.Close) + rest;
    var z := W(Key.Close) + y;
    var u := W(Key.Exists(f.negated)) + (t + z);
    Starting(Key.Close, rest);
    Starting(Key.Close, y);
    Starting(Key.Exists(f.negated), t + z);
    Starting(Key.Open, u);
    ReadsSelect(f.child, alias, extra, z);
    StepClosed(t + z, p, z);
    StepFound(u, f.negated, p, y);
    StepGroup(W(Key.Open) + u);
    StepGrouped(u, Found(p, f.negated), y);
  }

  lemma {:induction false} ReadsFilters(fs: seq<Filter>, rootAlias: string, rest: Sql, more: seq<Test>, end: Sql)
    requires fs != [] && SoundFilterList(fs, rootAlias) && TestsBehind(rest, more, end)
    requires forall i | 0 <= i < |fs| :: FlatTest(MeantFilters(fs, rootAlias)[i])
    ensures InlineFilters(fs, rootAlias, true).Some?
    ensures ReadTests(InlineFilters(fs, rootAlias, true).value + rest) == Read(MeantFilters(fs, rootAlias) + more, end)
    decreases fs, 2
  {
    hide ReadTest, ReadTests, TestsBehind, InlineFilter, MeantFilter, SoundFilter, Separator, FlatTest;
    var others := fs[1..];
    FiltersExist(fs, rootAlias, true);
    FiltersExist(others, rootAlias, false);
    FiltersExist(others, rootAlias, true);
    assert MeantFilters(fs, rootAlias) == [MeantFilter(fs[0], rootAlias)] + MeantFilters(others, rootAlias);
    FlatTestsParts(MeantFilter(fs[0], rootAlias), MeantFilters(others, rootAlias));
    var x, y := InlineFilter(fs[0], rootAlias).value, InlineFilters(others, rootAlias, false).value;
    OfList(Key.Connect(true), x, y, rest);
    ReadsFilter(fs[0], rootAlias, y + rest);
    if others == [] {
      Nothing(rest);
      TestsGoOn(x + rest, MeantFilter(fs[0], rootAlias), rest, more, end);
      assert MeantFilters(fs, rootAlias) == [MeantFilter(fs[0], rootAlias)];
    } else {
      OfList(Key.Connect(true), InlineFilter(others[0], rootAlias).value,
             InlineFilters(others[1..], rootAlias, false).value,
             rest);
      var t := InlineFilters(others, rootAlias, true).value + rest;
      Starting(Key.Connect(true), t);
      ReadsFilters(others, rootAlias, rest, more, end);
      BehindAnd(t, MeantFilters(others, rootAlias) + more, end);
      TestsGoOn(x + (y + rest), MeantFilter(fs[0], rootAlias), y + rest, MeantFilters(others, rootAlias) + more, end);
      assert [MeantFilter(fs[0], rootAlias)] + (MeantFilters(others, rootAlias) + more)
          == MeantFilters(fs, rootAlias) + more;
    }
  }

  lemma {:induction false} ReadsExtra(filters: Filters, extra: Option<Extra>, rootAlias: string, rest: Sql)
    requires SoundFilters(filters, rootAlias) && !Starts(rest, Key.Connect(true))
    requires forall i | 0 <= i < |MeantExtra(filters, extra, rootAlias)| ::
               FlatTest(MeantExtra(filters, extra, rootAlias)[i])
    ensures InlineExtra(filters, extra, rootAlias).Some?
    ensures InlineExtra(filters, extra, rootAlias).value == [] <==> MeantExtra(filters, extra, rootAlias) == []
    ensures MeantExtra(filters, extra, rootAlias) != [] ==>
              ReadTests(InlineExtra(filters, extra, rootAlias).value + rest)
              == Read(MeantExtra(filters, extra, rootAlias), rest)
    decreases filters, 3
  {
    hide ReadTest, ReadTests, CorrelationSql, MeantCorrelation, InlineFilters, MeantFilters, SoundFilterList,
         TestsBehind, InGroup, FlatTest;
    ExtraExists(filters, extra, rootAlias);
    if extra.Some? {
      ReadsOwnGroup(extra.value.relation, rootAlias, extra.value.outerAlias, rest);
    }
    match filters
    case Plain =>
      if extra.Some? { ReadsOwn(extra.value.relation, rootAlias, extra.value.outerAlias, rest); }
    case Filtered(fs) => ReadsFiltered(fs, extra, rootAlias, rest);
  }

  lemma {:induction false} ReadsFiltered(fs: seq<Filter>, extra: Option<Extra>, rootAlias: string, rest: Sql)
    requires SoundFilterList(fs, rootAlias) && !Starts(rest, Key.Connect(true))
    requires forall i | 0 <= i < |MeantExtra(Filtered(fs), extra, rootAlias)| ::
               FlatTest(MeantExtra(Filtered(fs), extra, rootAlias)[i])
    ensures InlineExtra(Filtered(fs), extra, rootAlias).Some?
    ensures InlineExtra(Filtered(fs), extra, rootAlias).value == []
       <==> MeantExtra(Filtered(fs), extra, rootAlias) == []
    ensures MeantExtra(Filtered(fs), extra, rootAlias) != [] ==>
              ReadTests(InlineExtra(Filtered(fs), extra, rootAlias).value + rest)
              == Read(MeantExtra(Filtered(fs), extra, rootAlias), rest)
    decreases fs, 3
  {
    hide ReadTest, ReadTests, CorrelationSql, MeantCorrelation, InlineFilters, MeantFilters, SoundFilterList,
         TestsBehind, InGroup, FlatTest;
    FiltersExist(fs, rootAlias, true);
    var f, ms := InlineFilters(fs, rootAlias, true).value, MeantFilters(fs, rootAlias);
    NoFilters(rootAlias);
    match extra
    case None =>
      FilteredAlone(f, rest);
      assert MeantExtra(Filtered(fs), extra, rootAlias) == ms;
      if fs != [] {
        NothingBehind(rest);
        ReadsFilters(fs, rootAlias, rest, [], rest);
        assert ms + [] == ms;
        ReadingIsSome(f, rest, ms, rest);
      }
    case Some(x) =>
      var own := CorrelationSql(x.relation, rootAlias, x.outerAlias);
      ReadsOwnGroup(x.relation, rootAlias, x.outerAlias, rest);
      var g := W(Key.Open) + (own + (W(Key.Close) + rest));
      var group := InGroup(MeantCorrelation(x.relation, rootAlias, x.outerAlias));
      assert MeantExtra(Filtered(fs), extra, rootAlias) == ms + [group];
      StepTests(g, group, rest);
      FilteredBehind(f, fs == [], own, rest);
      if fs == [] {
        assert ms + [group] == [group];
      } else {
        BehindAnd(g, [group], rest);
        FlatTestsFirst(ms, [group]);
        ReadsFilters(fs, rootAlias, W(Key.Connect(true)) + g, [group], rest);
      }
  }

  lemma NoFilters(rootAlias: string)
    ensures InlineFilters([], rootAlias, true) == Some([]) && MeantFilters([], rootAlias) == []
  {}

  // ----- clauses that may be missing

  lemma {:induction false} ReadsRestriction(q: Select, extra: Option<Extra>, rootAlias: string, aliases: Aliases,
                                            rest: Sql)
    requires SoundCondition(q.condition, aliases) && SoundFilters(q.filters, rootAlias) && Later(rest, 3)
    requires FlatRestriction(MeantRestriction(q, extra, rootAlias, aliases))
    ensures InlineCondition(q, extra, rootAlias, aliases).Some?
    ensures var t := InlineCondition(q, extra, rootAlias, aliases).value + rest;
            ReadRestriction(t) == Read(MeantRestriction(q, extra, rootAlias, aliases), rest) && Later(t, 2)
    decreases q, 5
  {
    hide ReadTest, ReadTests, ReadRestriction, NoSum, InlineExtra, MeantExtra, InlineExpr, MeantExpr, SoundExpr,
         SoundFilters, FlatTest;
    ConditionExists(q, extra, rootAlias, aliases);
    ExtraExists(q.filters, extra, rootAlias);
    LaterIs(rest, 3);
    var ms := MeantExtra(q.filters, extra, rootAlias);
    var x, z := InlineExtra(q.filters, extra, rootAlias).value, W(Key.Close) + rest;
    Starting(Key.Close, rest);
    match q.condition
    case Always =>
      ReadsExtra(q.filters, extra, rootAlias, rest);
      if ms == [] {
        Nothing(rest);
        StepUnrestricted(rest);
      } else {
        Around3(W(Key.Where), x, [], rest);
        Nothing(rest);
        Starting(Key.Where, x + rest);
        StepOnlyIf(W(Key.Where) + (x + rest), ms, rest);
      }
    case Where(e) =>
      ExprExists(e, aliases);
      var c := InlineExpr(e, aliases).value;
      ReadsExtra(q.filters, extra, rootAlias, z);
      if ms == [] {
        Around3(W(Key.Where), c, [], rest);
        Nothing(rest);
        Starting(Key.Where, c + rest);
        assert [MeantExpr(e, aliases)][0] == MeantExpr(e, aliases);
        ReadsExpr(e, aliases, rest);
        StepTests(c + rest, MeantExpr(e, aliases), rest);
        StepOnlyIf(W(Key.Where) + (c + rest), [MeantExpr(e, aliases)], rest);
      } else {
        var u := W(Key.CloseAndOpen) + (x + z);
        Pair5(W(Key.WhereOpen), c, W(Key.CloseAndOpen), x, W(Key.Close), rest);
        Starting(Key.WhereOpen, c + u);
        Starting(Key.CloseAndOpen, x + z);
        ReadsExpr(e, aliases, u);
        StepAlsoIf(W(Key.WhereOpen) + (c + u), MeantExpr(e, aliases), u, ms, z);
      }
  }

  lemma {:induction false} ReadsHaving(q: Select, aliases: Aliases, rest: Sql)
    requires SoundCondition(q.having, aliases) && Later(rest, 5)
    requires MeantHaving(q, aliases).GroupTest? ==> FlatTest(MeantHaving(q, aliases).test)
    ensures HavingSql(q, aliases).Some?
    ensures var t := HavingSql(q, aliases).value + rest;
            ReadGroupTest(t) == Read(MeantHaving(q, aliases), rest) && Later(t, 4)
    decreases q, 5
  {
    hide ReadTest, NoSum, InlineExpr, MeantExpr, SoundExpr, FlatTest;
    LaterIs(rest, 5);
    Nothing(rest);
    match q.having
    case Always =>
    case Where(e) =>
      ExprExists(e, aliases);
      var x := InlineExpr(e, aliases).value;
      Around3(W(Key.Having), x, [], rest);
      Starting(Key.Having, x + rest);
      ReadsExpr(e, aliases, rest);
  }

  // ----- the whole query

  /** The text of a query from SELECT to HAVING, and what stands behind it. */
  ghost function CoreText(q: Select, override: string, extra: Option<Extra>, rest: Sql): Sql
    requires Sound(q, override, extra)
  {
    var rootAlias, aliases := QueryAlias(q, override, extra), QueryAliases(q, override, extra);
    SoundParts(q, override, extra);
    SelectList(q, rootAlias, aliases).value
    + (InlineSource(q, rootAlias).value
       + (JoinText(q, override, extra).value.1
          + (CteJoinList(q.cteJoins, aliases).value
             + (InlineCondition(q, extra, rootAlias, aliases).value
                + (GroupSql(q, aliases).value + (HavingSql(q, aliases).value + rest))))))
  }

  lemma SoundParts(q: Select, override: string, extra: Option<Extra>)
    requires Sound(q, override, extra)
    ensures var rootAlias, aliases := QueryAlias(q, override, extra), QueryAliases(q, override, extra);
            && SelectList(q, rootAlias, aliases).Some? && InlineSource(q, rootAlias).Some?
            && JoinText(q, override, extra).Some? && CteJoinList(q.cteJoins, aliases).Some?
            && InlineCondition(q, extra, rootAlias, aliases).Some? && GroupSql(q, aliases).Some?
            && HavingSql(q, aliases).Some? && Tail(q, aliases).Some? && CtesSql(q).Some?
            && InlineSetOperations(q.setOperations).Some? && InlineSelect(q, override, extra).Some?
  {
    hide InlineSelect, InlineSource, CteJoinList, InlineCondition, GroupSql, HavingSql, InlineSetOperations, Tail,
         CtesSql, KnownJoins, SoundCtes, SoundProjections, SoundOrigin, KnownCteJoins, SoundCondition, SoundFilters,
         KnownColumns, SoundOperations, KnownOrder, QueryAlias, QueryAliases, JoinText;
    var rootAlias, aliases := QueryAlias(q, override, extra), QueryAliases(q, override, extra);
    SelectExists(q, override, extra);
    PartsOf(q, override, extra);
  }

  lemma {:induction false} ReadsCore(q: Select, override: string, extra: Option<Extra>, rest: Sql)
    requires Sound(q, override, extra) && Flat(MeantCore(q, override, extra)) && Later(rest, 5)
    ensures ReadCore(CoreText(q, override, extra, rest)) == Read(MeantCore(q, override, extra), rest)
    decreases q, 8
  {
    hide ReadList, ReadOrigin, ReadLinks, ReadRestriction, ReadGroupBy, ReadGroupTest, ReadCore, SelectList,
         InlineSource, CteJoinList, InlineCondition, GroupSql, HavingSql, KnownJoins, SoundCtes, SoundProjections,
         SoundOrigin, KnownCteJoins, SoundCondition, SoundFilters, KnownColumns, SoundOperations, KnownOrder,
         QueryAlias, QueryAliases, FlatTerm, FlatTest, FlatRestriction, MeantItems, MeantOrigin, MeantRestriction,
         MeantColumns, MeantHaving, Later, Joined, MeantJoins, MeantCteJoins, JoinText, QueryLinks;
    var rootAlias, aliases := QueryAlias(q, override, extra), QueryAliases(q, override, extra);
    SoundParts(q, override, extra);
    var t5 := HavingSql(q, aliases).value + rest;
    ReadsHaving(q, aliases, rest);
    var t4 := GroupSql(q, aliases).value + t5;
    ReadsGroupBy(q, aliases, t5);
    var t3 := InlineCondition(q, extra, rootAlias, aliases).value + t4;
    ReadsRestriction(q, extra, rootAlias, aliases, t4);
    var t2 := JoinText(q, override, extra).value.1 + (CteJoinList(q.cteJoins, aliases).value + t3);
    ReadsLinks(q, override, extra, t3);
    var t1 := InlineSource(q, rootAlias).value + t2;
    ReadsOrigin(q, rootAlias, t2);
    ReadsList(q, rootAlias, aliases, t1);
    StepCore(SelectList(q, rootAlias, aliases).value + t1, q.distinct, MeantItems(q, rootAlias, aliases), t1,
             MeantOrigin(q, rootAlias), t2, QueryLinks(q, override, extra), t3,
             MeantRestriction(q, extra, rootAlias, aliases), t4, MeantColumns(q.groupBy, aliases), t5,
             MeantHaving(q, aliases), rest);
  }

  lemma ReadsLinks(q: Select, override: string, extra: Option<Extra>, rest: Sql)
    requires Sound(q, override, extra) && Later(rest, 2)
    ensures JoinText(q, override, extra).Some? && CteJoinList(q.cteJoins, QueryAliases(q, override, extra)).Some?
    ensures var t := JoinText(q, override, extra).value.1
                     + (CteJoinList(q.cteJoins, QueryAliases(q, override, extra)).value + rest);
            ReadLinks(t) == Read(QueryLinks(q, override, extra), rest) && Later(t, 1)
  {
    hide ReadLinks, CteJoinList, Joined, MeantJoins, MeantCteJoins, KnownJoins, SoundCtes, SoundProjections,
         SoundOrigin, KnownCteJoins, SoundCondition, SoundFilters, KnownColumns, SoundOperations, KnownOrder,
         QueryAlias;
    var rootAlias, aliases := QueryAlias(q, override, extra), QueryAliases(q, override, extra);
    ReadsCteJoins(q.cteJoins, aliases, rest);
    var u := CteJoinList(q.cteJoins, aliases).value + rest;
    ReadsJoins(q.joins, map[q.root := rootAlias], rootAlias, override != "", 1, 0, u);
    LinksAreLater(JoinText(q, override, extra).value.1 + u, rest);
  }

  // ----- common table expressions

  lemma {:induction false} ReadsCte(c: Cte, rest: Sql)
    requires SoundCte(c) && Flat(MeantCte(c).query)
    ensures InlineCte(c).Some?
    ensures ReadCommon(InlineCte(c).value + rest) == Read(MeantCte(c), rest)
    decreases c, 1
  {
    hide ReadCommon, ReadName, ReadCommonColumns, ReadClosed, ReadStatement, InlineSelect, MeantSelect, Sound, Flat,
         CteHead, CommonColumns;
    CteExists(c);
    var t, z := InlineSelect(c.query, "", None).value, W(Key.Close) + rest;
    var v := W(Key.AsOpen) + (t + z);
    CteText(c, t, rest);
    Starting(Key.Close, rest);
    Starting(Key.AsOpen, t + z);
    ReadsName(c.name, CommonColumns(c.columns) + v);
    ReadsCommonColumns(c.columns, v);
    ReadsSelect(c.query, "", None, z);
    StepClosed(t + z, MeantSelect(c.query, "", None), z);
    StepCommon([Name(c.name)] + (CommonColumns(c.columns) + v), c.name, CommonColumns(c.columns) + v, c.columns, v,
               MeantSelect(c.query, "", None), rest);
  }

  lemma {:induction false} ReadsCtes(cs: seq<Cte>, rest: Sql)
    requires cs != [] && SoundCtes(cs) && !Starts(rest, Key.Comma)
    requires forall i | 0 <= i < |cs| :: Flat(MeantCtes(cs)[i].query)
    ensures InlineCtes(cs, true).Some?
    ensures ReadCommons(InlineCtes(cs, true).value + rest) == Read(MeantCtes(cs), rest)
    decreases cs, 2
  {
    hide ReadCommon, ReadCommons, InlineCte, MeantCte, SoundCte, Separator, Flat;
    var more := cs[1..];
    CtesExist(cs, true);
    CtesExist(more, false);
    CtesExist(more, true);
    assert MeantCtes(cs) == [MeantCte(cs[0])] + MeantCtes(more);
    FlatCommonsParts(MeantCte(cs[0]), MeantCtes(more));
    var x, y := InlineCte(cs[0]).value, InlineCtes(more, false).value;
    OfList(Key.Comma, x, y, rest);
    ReadsCte(cs[0], y + rest);
    if more == [] {
      Nothing(rest);
      assert MeantCtes(cs) == [MeantCte(cs[0])];
      StepCommons(x + rest, MeantCte(cs[0]), rest);
    } else {
      OfList(Key.Comma, InlineCte(more[0]).value, InlineCtes(more[1..], false).value, rest);
      Starting(Key.Comma, InlineCtes(more, true).value + rest);
      ReadsCtes(more, rest);
      StepCommons(x + (y + rest), MeantCte(cs[0]), y + rest);
    }
  }

  lemma {:induction false} ReadsWith(q: Select, rest: Sql)
    requires SoundCtes(q.ctes) && Starts(rest, Key.Select)
    requires forall i | 0 <= i < |q.ctes| :: Flat(MeantCtes(q.ctes)[i].query)
    ensures CtesSql(q).Some?
    ensures ReadWith(CtesSql(q).value + rest) == Read((AnyRecursive(q.ctes), MeantCtes(q.ctes)), rest)
    decreases q, 8
  {
    hide ReadCommons, InlineCtes, MeantCtes, SoundCtes, Flat;
    CtesExist(q.ctes, true);
    if q.ctes == [] {
      Nothing(rest);
      NoCtes();
    } else {
      var x, k := InlineCtes(q.ctes, true).value, Key.With(AnyRecursive(q.ctes));
      Around3(W(k), x, W(Key.Space), rest);
      Starting(k, x + (W(Key.Space) + rest));
      Starting(Key.Space, rest);
      ReadsCtes(q.ctes, W(Key.Space) + rest);
    }
  }

  lemma NoCtes()
    ensures MeantCtes([]) == [] && !AnyRecursive([])
  {}

  // ----- set operations

  /** The text of a query: common table expressions, the text from SELECT to HAVING, set operations, and the end. */
  lemma QueryText(q: Select, override: string, extra: Option<Extra>, rest: Sql)
    requires Sound(q, override, extra)
    ensures InlineSelect(q, override, extra).Some? && CtesSql(q).Some? && InlineSetOperations(q.setOperations).Some?
    ensures Tail(q, QueryAliases(q, override, extra)).Some?
    ensures InlineSelect(q, override, extra).value + rest
         == CtesSql(q).value
            + CoreText(q, override, extra,
                       InlineSetOperations(q.setOperations).value
                       + (Tail(q, QueryAliases(q, override, extra)).value + rest))
  {
    hide InlineSelect, InlineSource, CteJoinList, InlineCondition, GroupSql, HavingSql, InlineSetOperations, Tail,
         CtesSql, SelectList, Sound, QueryAlias, QueryAliases, JoinText;
    var rootAlias, aliases := QueryAlias(q, override, extra), QueryAliases(q, override, extra);
    SoundParts(q, override, extra);
    PartsOf(q, override, extra);
    var joins, cteJoins := JoinText(q, override, extra).value.1, CteJoinList(q.cteJoins, aliases).value;
    var group, having := GroupSql(q, aliases).value, HavingSql(q, aliases).value;
    var operations, tail := InlineSetOperations(q.setOperations).value, Tail(q, aliases).value;
    var end := operations + (tail + rest);
    var condition := InlineCondition(q, extra, rootAlias, aliases).value;
    Eight(CtesSql(q).value, SelectList(q, rootAlias, aliases).value, InlineSource(q, rootAlias).value,
          joins + cteJoins + [], condition, [] + group + [] + having + [], operations, tail, rest);
    Pair5([], group, [], having, [], end);
    Nothing(end);
    Nothing(having + end);
    Nothing(group + (having + end));
    Around3(joins, cteJoins, [], condition + (group + (having + end)));
    Nothing(condition + (group + (having + end)));
  }

  /** A query that is to be an operand, and is a plain SELECT. */
  lemma {:induction false} ReadsOperand(q: Select, rest: Sql)
    requires Sound(q, "", None) && Flat(MeantSelect(q, "", None)) && IsOperand(MeantSelect(q, "", None))
             && Later(rest, 5)
    ensures InlineSelect(q, "", None).Some?
    ensures ReadCore(InlineSelect(q, "", None).value + rest) == Read(MeantSelect(q, "", None), rest)
    decreases q, 9
  {
    hide ReadCore, InlineSelect, CoreText, MeantCore, QueryAliases, Sound, Flat, Later, OrderList;
    QueryText(q, "", None, rest);
    var aliases := QueryAliases(q, "", None);
    OnlyCore(q, aliases);
    Nothing(rest);
    Nothing(CoreText(q, "", None, rest));
    FlatCore(q, "", None);
    ReadsCore(q, "", None, rest);
  }

  predicate PlainSelect(q: Select) {
    q.ctes == [] && q.setOperations == [] && q.orderBy == [] && q.limit == None && q.offset == None
  }

  lemma OperandIsPlain(q: Select)
    requires IsOperand(MeantSelect(q, "", None))
    ensures PlainSelect(q)
  {
    hide MeantCore, QueryAliases;
  }

  lemma PlainText(q: Select, aliases: Aliases)
    requires PlainSelect(q)
    ensures CtesSql(q) == Some([]) && InlineSetOperations(q.setOperations) == Some([]) && Tail(q, aliases) == Some([])
  {
    NoOperations();
    NoOrders(aliases);
    TailIs(q, aliases);
    hide Tail, InlineSetOperations, OrderList;
    assert LimitText(q.limit) == [] && OffsetText(q.offset) == [];
    Nothing([]);
  }

  lemma NoOperations()
    ensures InlineSetOperations([]) == Some([])
  {}

  lemma PlainMeaning(q: Select)
    requires PlainSelect(q)
    ensures MeantSelect(q, "", None) == MeantCore(q, "", None)
  {
    hide MeantCore, QueryAliases, MeantOrder, MeantCtes, AnyRecursive;
    NoOrders(QueryAliases(q, "", None));
    NoCtes();
    CoreIsOperand(q);
    var p := MeantCore(q, "", None);
    assert p.(recursive := false, commons := [], further := [], orderings := [], limit := None, offset := None) == p;
  }

  lemma OnlyCore(q: Select, aliases: Aliases)
    requires IsOperand(MeantSelect(q, "", None))
    ensures CtesSql(q) == Some([]) && InlineSetOperations(q.setOperations) == Some([]) && Tail(q, aliases) == Some([])
    ensures MeantSelect(q, "", None) == MeantCore(q, "", None)
  {
    hide *;
    OperandIsPlain(q);
    PlainText(q, aliases);
    PlainMeaning(q);
  }

  lemma CoreIsOperand(q: Select)
    ensures IsOperand(MeantCore(q, "", None))
  {}

  lemma FlatCore(q: Select, override: string, extra: Option<Extra>)
    requires Flat(MeantSelect(q, override, extra))
    ensures Flat(MeantCore(q, override, extra))
  {
    hide FlatTerm, FlatTest, FlatRestriction, MeantItems, MeantOrigin, QueryLinks, MeantRestriction, MeantColumns,
         MeantHaving, QueryAlias, QueryAliases, MeantCtes, MeantOperations, MeantOrder;
  }

  lemma {:induction false} ReadsOperation(o: SetOperation, rest: Sql)
    requires SoundOperation(o) && IsOperand(MeantOperation(o).query) && Flat(MeantOperation(o).query)
    requires Later(rest, 5) && ReadFurther(rest).Read?
    ensures InlineSetOperation(o).Some?
    ensures var t := InlineSetOperation(o).value + rest;
            ReadFurther(t) == Read([MeantOperation(o)] + ReadFurther(rest).x, ReadFurther(rest).rest) && Later(t, 5)
    decreases o, 1
  {
    hide ReadCore, ReadFurther, InlineSelect, MeantSelect, Sound, Flat, IsOperand;
    OperationExists(o);
    var t := InlineSelect(o.query, "", None).value;
    Around3(W(Key.Combine(o.op)), t, [], rest);
    Nothing(rest);
    Starting(Key.Combine(o.op), t + rest);
    ReadsOperand(o.query, rest);
    StepFurther(W(Key.Combine(o.op)) + (t + rest), o.op, MeantSelect(o.query, "", None), rest);
  }

  lemma {:induction false} ReadsOperations(os: seq<SetOperation>, rest: Sql)
    requires SoundOperations(os) && Later(rest, 6)
    requires forall i | 0 <= i < |os| :: IsOperand(MeantOperations(os)[i].query) && Flat(MeantOperations(os)[i].query)
    ensures InlineSetOperations(os).Some?
    ensures var t := InlineSetOperations(os).value + rest;
            ReadFurther(t) == Read(MeantOperations(os), rest) && Later(t, 5)
    decreases os, 2
  {
    hide ReadFurther, InlineSetOperation, MeantOperation, SoundOperation, Flat, IsOperand;
    OperationsExist(os);
    if os == [] {
      Nothing(rest);
      StepNoFurther(rest);
    } else {
      var more := os[1..];
      assert MeantOperations(os) == [MeantOperation(os[0])] + MeantOperations(more);
      FlatFurtherParts(MeantOperation(os[0]), MeantOperations(more));
      ReadsOperations(more, rest);
      var x, y := InlineSetOperation(os[0]).value, InlineSetOperations(more).value;
      Pair5([], x, [], y, [], rest);
      Nothing(rest);
      Nothing(y + rest);
      Nothing(x + (y + rest));
      ReadsOperation(os[0], y + rest);
    }
  }

  // ----- the end of a query

  lemma CoreBegin(q: Select, override: string, extra: Option<Extra>, rest: Sql)
    requires Sound(q, override, extra)
    ensures Starts(CoreText(q, override, extra, rest), Key.Select)
  {
    hide InlineProjections, RootColumns, Sound, QueryAlias, QueryAliases, JoinText, InlineSource, CteJoinList,
         InlineCondition, GroupSql, HavingSql;
    SoundParts(q, override, extra);
  }

  /** The inline text of a sound query is read as what the query means, if all operands of set operations within are
      plain SELECTs. */
  lemma {:induction false} ReadsSelect(q: Select, override: string, extra: Option<Extra>, rest: Sql)
    requires Sound(q, override, extra) && Flat(MeantSelect(q, override, extra)) && EndsStatement(rest)
    ensures InlineSelect(q, override, extra).Some?
    ensures ReadStatement(InlineSelect(q, override, extra).value + rest) == Read(MeantSelect(q, override, extra), rest)
    decreases q, 9
  {
    hide ReadWith, ReadCore, ReadFurther, ReadOrderBy, ReadLimit, ReadOffset, ReadStatement, InlineSelect, CoreText,
         MeantCore, QueryAliases, KnownJoins, SoundCtes, SoundProjections, SoundOrigin, KnownCteJoins, SoundCondition,
         SoundFilters, KnownColumns, SoundOperations, KnownOrder, QueryAlias, Tail, CtesSql, InlineSetOperations,
         MeantCtes, MeantOperations, MeantOrder, FlatTerm, FlatTest, FlatRestriction, Later, AnyRecursive, IsOperand;
    var aliases := QueryAliases(q, override, extra);
    QueryText(q, override, extra, rest);
    var u := OffsetText(q.offset) + rest;
    var v := LimitText(q.limit) + u;
    var t3 := Tail(q, aliases).value + rest;
    ReadsLimits(q.limit, q.offset, rest);
    ReadsTail(q, aliases, rest);
    var t2 := InlineSetOperations(q.setOperations).value + t3;
    ReadsOperations(q.setOperations, t3);
    var t1 := CoreText(q, override, extra, t2);
    FlatCore(q, override, extra);
    ReadsCore(q, override, extra, t2);
    CoreBegin(q, override, extra, t2);
    ReadsWith(q, t1);
    StepStatement(CtesSql(q).value + t1, AnyRecursive(q.ctes), MeantCtes(q.ctes), t1, MeantCore(q, override, extra), t2,
                  MeantOperations(q.setOperations), t3, MeantOrder(q.orderBy, aliases), v, q.limit, u, q.offset, rest);
  }

  /** And otherwise it is not: an operand that is no plain SELECT is never read as one. */
  lemma ReadsExactly(q: Select)
    requires Sound(q, "", None)
    ensures InlineSelect(q, "", None).Some?
    ensures var t := InlineSelect(q, "", None).value + W(Key.Semicolon);
            ReadStatement(t) == Read(MeantSelect(q, "", None), W(Key.Semicolon)) <==> Flat(MeantSelect(q, "", None))
  {
    hide ReadStatement, InlineSelect, MeantSelect, Sound, Flat;
    SelectExists(q, "", None);
    if Flat(MeantSelect(q, "", None)) { ReadsSelect(q, "", None, W(Key.Semicolon)); }
  }

  // ----- where it fails

  function Simple(root: string, orderBy: seq<OrderBy>, setOperations: seq<SetOperation>): Select {
    Select.Select(root, ["id"], false, [], Source.From(root), [], [], Always, Plain, [], Always, [], setOperations,
                  orderBy, None, None)
  }

  function ById(root: string): seq<OrderBy> { [OrderBy.OrderBy(ColumnRef(root, "id"), true)] }

  function SimpleHead(root: string): Sql { W(Key.Select) + [Name("id")] + W(Key.From) + [Name(root)] }

  function SimpleOrder(orderBy: seq<OrderBy>, aliases: Aliases): Option<Sql> {
    Around(if orderBy == [] then [] else W(Key.OrderBy), OrderList(orderBy, aliases, true), [])
  }

  lemma SimpleJoins(root: string)
    ensures var q := Simple(root, [], []);
            QueryAlias(q, "", None) == "" && QueryAliases(q, "", None) == map[root := ""]
            && JoinText(q, "", None) == Some((map[root := ""], []))
  {}

  lemma SimpleHeadIs(root: string, orderBy: seq<OrderBy>, setOperations: seq<SetOperation>)
    ensures var q, aliases := Simple(root, orderBy, setOperations), map[root := ""];
            && CtesSql(q) == Some([]) && SelectList(q, "", aliases) == Some(W(Key.Select) + [Name("id")] + W(Key.From))
            && InlineSource(q, "") == Some([Name(root)]) && CteJoinList(q.cteJoins, aliases) == Some([])
            && InlineCondition(q, None, "", aliases) == Some([]) && GroupSql(q, aliases) == Some([])
            && HavingSql(q, aliases) == Some([])
  {
    hide ColumnList;
    var q, aliases := Simple(root, orderBy, setOperations), map[root := ""];
    assert q.columns[1..] == [];
    assert RootColumns(q.columns[1..], "", false) == [];
    assert RootColumns(q.columns, "", true) == [] + [Name("id")] + [] == [Name("id")];
    assert W(Key.Select) + [] + [Name("id")] + W(Key.From) == W(Key.Select) + [Name("id")] + W(Key.From);
    assert SelectList(q, "", aliases) == Some(W(Key.Select) + [Name("id")] + W(Key.From));
    NoColumns(aliases);
    assert [Name(root)] + [] == [Name(root)];
    var none: Sql := [];
    assert none + none + none == none && GroupSql(q, aliases) == Some(none + none + none);
  }

  lemma SimpleIs(root: string, orderBy: seq<OrderBy>, setOperations: seq<SetOperation>)
    ensures InlineSelect(Simple(root, orderBy, setOperations), "", None)
         == Then(Then(Some(SimpleHead(root)), InlineSetOperations(setOperations)),
                 SimpleOrder(orderBy, map[root := ""]))
    ensures QueryAliases(Simple(root, orderBy, setOperations), "", None) == map[root := ""]
    ensures KnownJoins([], map[root := ""], "", false, 1)
    ensures QueryAlias(Simple(root, orderBy, setOperations), "", None) == ""
  {
    hide InlineSelect, CtesSql, SelectList, InlineSource, CteJoinList, InlineCondition, GroupSql, HavingSql,
         InlineSetOperations, OrderList, SimpleHead;
    var q, aliases := Simple(root, orderBy, setOperations), map[root := ""];
    SimpleJoins(root);
    PartsOf(q, "", None);
    SimpleHeadIs(root, orderBy, setOperations);
    SimpleParts(root);
    if OrderList(orderBy, aliases, true).Some? {
      var head := if orderBy == [] then [] else W(Key.OrderBy);
      assert head + OrderList(orderBy, aliases, true).value + ([] + [])
          == head + OrderList(orderBy, aliases, true).value + [];
    }
  }

  lemma SimpleParts(root: string)
    ensures [] + (W(Key.Select) + [Name("id")] + W(Key.From)) + [Name(root)] + ([] + [] + []) + []
            + ([] + [] + [] + [] + [])
         == SimpleHead(root)
  {}

  /** An order of the last operand and one of the whole are written down alike. */
  lemma OrderOfOperand()
    ensures var inner := Simple("a", [], [SetOperation(Union, Simple("b", ById("b"), []))]);
            var outer := Simple("a", ById("a"), [SetOperation(Union, Simple("b", [], []))]);
            && InlineSelect(inner, "", None).Some? && InlineSelect(inner, "", None) == InlineSelect(outer, "", None)
            && MeantSelect(inner, "", None) != MeantSelect(outer, "", None)
  {
    hide InlineSelect, SimpleHead, SimpleOrder, MeantSelect, QueryAliases, InlineSetOperations, Simple, ById;
    SimpleIs("b", ById("b"), []);
    SimpleIs("b", [], []);
    SimpleIs("a", [], [SetOperation(Union, Simple("b", ById("b"), []))]);
    SimpleIs("a", ById("a"), [SetOperation(Union, Simple("b", [], []))]);
    OrderText("a");
    OrderText("b");
    NoOperations();
    OneOperation(Simple("b", ById("b"), []));
    OneOperation(Simple("b", [], []));
    OrderMoves(SimpleHead("a"), W(Key.Combine(Union)), SimpleHead("b"), SimpleOrder(ById("a"), map["a" := ""]).value);
    OrdersDiffer([SetOperation(Union, Simple("b", ById("b"), []))], [SetOperation(Union, Simple("b", [], []))]);
  }

  lemma OrderMoves(a: Sql, u: Sql, b: Sql, o: Sql)
    ensures a + (u + (b + [] + o) + []) + [] == a + (u + (b + [] + []) + []) + o
  {}

  lemma OrdersDiffer(xs: seq<SetOperation>, ys: seq<SetOperation>)
    ensures MeantSelect(Simple("a", [], xs), "", None) != MeantSelect(Simple("a", ById("a"), ys), "", None)
  {
    hide MeantCore, QueryAliases, MeantOperations;
    assert |MeantSelect(Simple("a", [], xs), "", None).orderings| == 0;
    assert |MeantSelect(Simple("a", ById("a"), ys), "", None).orderings| == 1;
  }

  lemma OrderText(root: string)
    ensures SimpleOrder(ById(root), map[root := ""]) == Some(W(Key.OrderBy) + ([Name("id")] + W(Key.Direction(true))))
    ensures SimpleOrder([], map[root := ""]) == Some([])
  {
    var os := ById(root);
    assert os[1..] == [];
    NoOrders(map[root := ""]);
    assert OrderList(os[1..], map[root := ""], false) == Some([]);
    assert OrderList(os, map[root := ""], true) == Some([] + [Name("id")] + W(Key.Direction(true)) + [] + []);
    assert [] + [Name("id")] + W(Key.Direction(true)) + [] + [] == [Name("id")] + W(Key.Direction(true));
    var text := [Name("id")] + W(Key.Direction(true));
    assert W(Key.OrderBy) + text + [] == W(Key.OrderBy) + text;
    var none: Sql := [];
    assert none + none + none == none;
  }

  lemma OneOperation(q: Select)
    requires InlineSelect(q, "", None).Some?
    ensures InlineSetOperations([SetOperation(Union, q)])
         == Some(W(Key.Combine(Union)) + InlineSelect(q, "", None).value + [])
  {
    hide InlineSelect;
    var os := [SetOperation(Union, q)];
    assert os[1..] == [];
    NoOperations();
    var x := W(Key.Combine(Union)) + InlineSelect(q, "", None).value + [];
    assert [] + x + [] + [] + [] == x;
  }
}
