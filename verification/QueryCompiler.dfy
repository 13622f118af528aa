/** The query compiler: values go into one list of parameters while the text is put together,
    and nested queries count their placeholders on from those of the outer query. */
module QueryCompiler {
  import opened Wrappers
  import opened Values
  import opened Tokens
  import opened SqlWords
  import opened Queries
  import opened SqlReader
  import opened QueryMeaning
  import opened QuerySoundness
  import opened QueryValues
  import opened QueryReading

  /** `sql` is `spec` with its values taken out, in order, to the end of the parameters, and
      placeholders counting on from `offset` in their places. */
  ghost predicate Emitted(sql: Option<Sql>, spec: Option<Sql>, offset: nat, before: seq<Value>, after: seq<Value>) {
    && (sql.None? <==> spec.None?)
    && (spec.Some? ==>
          && IsInline(spec.value)
          && sql.value == Number(spec.value, offset + |before|)
          && after == before + Bindings(spec.value))
  }

  lemma EmitPlain(t: Sql, offset: nat, params: seq<Value>)
    requires IsPlain(t)
    ensures Emitted(Some(t), Some(t), offset, params, params)
  {
    PlainStays(t, offset + |params|);
    assert params + [] == params;
  }

  lemma EmitThen(a: Sql, sa: Option<Sql>, b: Sql, sb: Option<Sql>, offset: nat,
                 p0: seq<Value>, p1: seq<Value>, p2: seq<Value>)
    requires Emitted(Some(a), sa, offset, p0, p1) && Emitted(Some(b), sb, offset, p1, p2)
    ensures Emitted(Some(a + b), Then(sa, sb), offset, p0, p2)
  {
    NumberAppend(sa.value, sb.value, offset + |p0|);
    BindingsAppend(sa.value, sb.value);
    assert p0 + (Bindings(sa.value) + Bindings(sb.value)) == p0 + Bindings(sa.value) + Bindings(sb.value);
  }

  lemma EmitAround(before: Sql, x: Sql, sx: Option<Sql>, after: Sql, offset: nat, p0: seq<Value>, p1: seq<Value>)
    requires IsPlain(before) && IsPlain(after) && Emitted(Some(x), sx, offset, p0, p1)
    ensures Emitted(Some(before + x + after), Around(before, sx, after), offset, p0, p1)
  {
    EmitPlain(before, offset, p0);
    EmitThen(before, Some(before), x, sx, offset, p0, p0, p1);
    EmitPlain(after, offset, p1);
    hide Emitted;
    EmitThen(before + x, Then(Some(before), sx), after, Some(after), offset, p0, p1, p1);
  }

  lemma EmitPair(before: Sql, x: Sql, sx: Option<Sql>, between: Sql, y: Sql, sy: Option<Sql>, after: Sql,
                 offset: nat, p0: seq<Value>, p1: seq<Value>, p2: seq<Value>)
    requires IsPlain(before) && IsPlain(between) && IsPlain(after)
    requires Emitted(Some(x), sx, offset, p0, p1) && Emitted(Some(y), sy, offset, p1, p2)
    ensures Emitted(Some(before + x + between + y + after), Pair(before, sx, between, sy, after), offset, p0, p2)
  {
    EmitAround(before, x, sx, between, offset, p0, p1);
    EmitThen(before + x + between, Around(before, sx, between), y, sy, offset, p0, p1, p2);
    EmitPlain(after, offset, p2);
    hide Emitted;
    EmitThen(before + x + between + y, Then(Around(before, sx, between), sy), after, Some(after), offset, p0, p2, p2);
  }

  /** One more element of a list: `whole` is what is done and then the rest. */
  lemma EmitNext(out: Sql, done: Sql, sep: Sql, x: Sql, sx: Option<Sql>, rest: Option<Sql>, whole: Option<Sql>,
                 offset: nat, p0: seq<Value>, p1: seq<Value>, p2: seq<Value>)
    requires IsPlain(sep) && Emitted(Some(out), Some(done), offset, p0, p1) && Emitted(Some(x), sx, offset, p1, p2)
    requires whole == Then(Some(done), Pair(sep, sx, [], rest, []))
    ensures sx.Some? && Emitted(Some(out + sep + x), Some(done + sep + sx.value), offset, p0, p2)
    ensures whole == Then(Some(done + sep + sx.value), rest)
  {
    EmitPlain(sep, offset, p1);
    EmitThen(out, Some(done), sep, Some(sep), offset, p0, p1, p1);
    EmitThen(out + sep, Some(done + sep), x, sx, offset, p0, p1, p2);
    if rest.Some? {
      assert done + (sep + sx.value + [] + rest.value + []) == done + sep + sx.value + rest.value;
    }
  }

  class CompileContext {
    /** How many placeholders the queries around this one have used. */
    const offset: nat
    var aliases: Aliases
    var params: seq<Value>

    constructor (offset: nat)
      ensures this.offset == offset && params == [] && aliases == map[]
    {
      this.offset := offset;
      params := [];
      aliases := map[];
    }

    method Bind(v: Value) returns (sql: Sql)
      modifies this`params
      ensures Emitted(Some(sql), Some([Literal(v)]), offset, old(params), params)
    {
      params := params + [v];
      sql := [Hole(offset + |params|)];
      NumberOne(v, offset + |old(params)|);
    }

    method CompileScalar(s: Scalar) returns (sql: Option<Sql>)
      modifies this`params
      ensures Emitted(sql, InlineScalar(s, aliases), offset, old(params), params)
      decreases s, 1
    {
      match s {
        case Column(c) =>
          sql := ColumnSql(c, aliases);
          if sql.Some? { EmitPlain(sql.value, offset, params); }
        case Constant(v) =>
          var hole := Bind(v);
          sql := Some(hole);
        case Arithmetic(left, op, right) =>
          var l := CompileScalar(left);
          if l.None? { return None; }
          ghost var between := params;
          var r := CompileScalar(right);
          if r.None? { return None; }
          EmitPair(W(Key.Open), l.value, InlineScalar(left, aliases), W(Key.Calculate(op)), r.value,
                   InlineScalar(right, aliases), W(Key.Close),
                   offset, old(params), between, params);
          sql := Some(W(Key.Open) + l.value + W(Key.Calculate(op)) + r.value + W(Key.Close));
        case Aggregate(kind, column, distinct) =>
          sql := AggregateSql(kind, column, distinct, aliases);
          if sql.Some? { EmitPlain(sql.value, offset, params); }
        case Function(name, args) =>
          if !IsFunctionName(name) { return None; }
          var list := CompileArgs(args);
          if list.None? { return None; }
          EmitAround(W(Key.Call(name)), list.value, InlineArgs(args, aliases, true), W(Key.Close), offset, old(params),
                     params);
          sql := Some(W(Key.Call(name)) + list.value + W(Key.Close));
        case Case(_, _) => sql := CompileCase(s);
        case Window(_, _, _, _) => sql := CompileWindow(s);
      }
    }

    method CompileWindow(s: Scalar) returns (sql: Option<Sql>)
      requires s.Window?
      modifies this`params
      ensures Emitted(sql, InlineScalar(s, aliases), offset, old(params), params)
      decreases s, 0
    {
      var Window(name, args, partitionBy, windowOrder) := s;
      if !IsFunctionName(name) { return None; }
      var list := CompileArgs(args);
      if list.None? { return None; }
      var tail := WindowTail(partitionBy, windowOrder, aliases);
      if tail.None? { return None; }
      EmitPlain(tail.value, offset, params);
      EmitPair(W(Key.Call(name)), list.value, InlineArgs(args, aliases, true), W(Key.OverOpen), tail.value, tail, [],
               offset, old(params), params, params);
      sql := Some(W(Key.Call(name)) + list.value + W(Key.OverOpen) + tail.value + []);
    }

    method CompileCase(s: Scalar) returns (sql: Option<Sql>)
      requires s.Case?
      modifies this`params
      ensures Emitted(sql, InlineScalar(s, aliases), offset, old(params), params)
      decreases s, 0
    {
      var Case(branches, otherwise) := s;
      if branches == [] { return None; }
      var bs := CompileBranches(branches);
      if bs.None? { return None; }
      ghost var between := params;
      match otherwise {
        case NoElse =>
          EmitPlain([], offset, params);
          EmitPair(W(Key.CaseBegin), bs.value, InlineBranches(branches, aliases), [], [], Some([]), W(Key.CaseEnd),
                   offset, old(params), between, params);
          sql := Some(W(Key.CaseBegin) + bs.value + [] + [] + W(Key.CaseEnd));
        case Else(e) =>
          var x := CompileScalar(e);
          if x.None? { return None; }
          EmitAround(W(Key.CaseElse), x.value, InlineScalar(e, aliases), [], offset, between, params);
          EmitPair(W(Key.CaseBegin), bs.value, InlineBranches(branches, aliases), [], W(Key.CaseElse) + x.value + [],
                   Around(W(Key.CaseElse), InlineScalar(e, aliases), []), W(Key.CaseEnd), offset, old(params), between,
                     params);
          sql := Some(W(Key.CaseBegin) + bs.value + [] + (W(Key.CaseElse) + x.value + []) + W(Key.CaseEnd));
      }
    }

    method CompileArgs(args: seq<Scalar>) returns (sql: Option<Sql>)
      modifies this`params
      ensures Emitted(sql, InlineArgs(args, aliases, true), offset, old(params), params)
      decreases args, 1
    {
      var out := [];
      ghost var done := [];
      EmitPlain([], offset, params);
      EmitStart(InlineArgs(args, aliases, true));
      assert args[0..] == args;
      for i := 0 to |args|
        invariant Emitted(Some(out), Some(done), offset, old(params), params)
        invariant InlineArgs(args, aliases, true) == Then(Some(done), InlineArgs(args[i..], aliases, i == 0))
      {
        ghost var before := params;
        var arg := CompileScalar(args[i]);
        if arg.None? { return None; }
        assert args[i..][1..] == args[i + 1..];
        EmitNext(out, done, Separator(i == 0, Key.Comma), arg.value, InlineScalar(args[i], aliases),
                 InlineArgs(args[i + 1..], aliases, false), InlineArgs(args, aliases, true),
                 offset, old(params), before, params);
        out := out + Separator(i == 0, Key.Comma) + arg.value;
        done := done + Separator(i == 0, Key.Comma) + InlineScalar(args[i], aliases).value;
      }
      EmitEnd(done);
      sql := Some(out);
    }

    method CompileBranches(bs: seq<Branch>) returns (sql: Option<Sql>)
      modifies this`params
      ensures Emitted(sql, InlineBranches(bs, aliases), offset, old(params), params)
      decreases bs, 2
    {
      var out := [];
      ghost var done := [];
      EmitPlain([], offset, params);
      EmitStart(InlineBranches(bs, aliases));
      assert bs[0..] == bs;
      for i := 0 to |bs|
        invariant Emitted(Some(out), Some(done), offset, old(params), params)
        invariant InlineBranches(bs, aliases) == Then(Some(done), InlineBranches(bs[i..], aliases))
      {
        ghost var before := params;
        var branch := CompileBranch(bs[i]);
        if branch.None? { return None; }
        assert bs[i..][1..] == bs[i + 1..];
        EmitNext(out, done, [], branch.value, InlineBranch(bs[i], aliases),
                 InlineBranches(bs[i + 1..], aliases), InlineBranches(bs, aliases),
                 offset, old(params), before, params);
        out := out + [] + branch.value;
        done := done + [] + InlineBranch(bs[i], aliases).value;
      }
      EmitEnd(done);
      sql := Some(out);
    }

    method CompileBranch(b: Branch) returns (sql: Option<Sql>)
      modifies this`params
      ensures Emitted(sql, InlineBranch(b, aliases), offset, old(params), params)
      decreases b, 1
    {
      var condition := CompileExpr(b.condition);
      if condition.None? { return None; }
      ghost var between := params;
      var result := CompileScalar(b.result);
      if result.None? { return None; }
      EmitPair(W(Key.CaseWhen), condition.value, InlineExpr(b.condition, aliases), W(Key.CaseThen),
               result.value, InlineScalar(b.result, aliases), [], offset, old(params), between, params);
      sql := Some(W(Key.CaseWhen) + condition.value + W(Key.CaseThen) + result.value + []);
    }

    method CompileExpr(e: Expr) returns (sql: Option<Sql>)
      modifies this`params
      ensures Emitted(sql, InlineExpr(e, aliases), offset, old(params), params)
      decreases e, 1
    {
      match e {
        case Comparison(left, op, right) =>
          var l := CompileScalar(left);
          if l.None? { return None; }
          ghost var between := params;
          var r := CompileScalar(right);
          if r.None? { return None; }
          EmitPair([], l.value, InlineScalar(left, aliases), W(Key.Compare(op)), r.value, InlineScalar(right, aliases),
                   [], offset, old(params), between, params);
          sql := Some([] + l.value + W(Key.Compare(op)) + r.value + []);
        case NullCheck(operand, negated) =>
          var x := CompileScalar(operand);
          if x.None? { return None; }
          var after := W(Key.IsNull(negated));
          EmitAround([], x.value, InlineScalar(operand, aliases), after, offset, old(params), params);
          sql := Some([] + x.value + after);
        case Like(operand, pattern, negated) =>
          var x := CompileScalar(operand);
          if x.None? { return None; }
          ghost var between := params;
          var y := CompileScalar(pattern);
          if y.None? { return None; }
          var like := W(Key.Like(negated));
          EmitPair([], x.value, InlineScalar(operand, aliases), like, y.value, InlineScalar(pattern, aliases), [],
                   offset, old(params), between, params);
          sql := Some([] + x.value + like + y.value + []);
        case Between(_, _, _, _) => sql := CompileBetween(e);
        case InValues(operand, values, negated) =>
          if values == [] {
            sql := Some(W(Key.Truth(negated)));
            EmitPlain(sql.value, offset, params);
            return;
          }
          var x := CompileScalar(operand);
          if x.None? { return None; }
          ghost var between := params;
          var list := BindList(values);
          var opening := W(Key.InOpen(negated));
          EmitPair([], x.value, InlineScalar(operand, aliases), opening, list, Some(LiteralList(values, true)),
                   W(Key.Close),
                   offset, old(params), between, params);
          sql := Some([] + x.value + opening + list + W(Key.Close));
        case InSubquery(operand, query, negated) =>
          if Arity(query) != 1 { return None; }
          var x := CompileScalar(operand);
          if x.None? { return None; }
          ghost var between := params;
          var nested := CompileNested(query, "", None);
          if nested.None? { return None; }
          var opening := W(Key.InOpen(negated));
          EmitPair([], x.value, InlineScalar(operand, aliases), opening, nested.value, InlineSelect(query, "", None),
                   W(Key.Close), offset, old(params), between, params);
          sql := Some([] + x.value + opening + nested.value + W(Key.Close));
        case Exists(query, negated) =>
          var nested := CompileNested(query, "", None);
          if nested.None? { return None; }
          var opening := W(Key.Exists(negated));
          EmitAround(opening, nested.value, InlineSelect(query, "", None), W(Key.Close), offset, old(params), params);
          sql := Some(opening + nested.value + W(Key.Close));
        case Logical(isAnd, first, second) =>
          var l := CompileExpr(first);
          if l.None? { return None; }
          ghost var between := params;
          var r := CompileExpr(second);
          if r.None? { return None; }
          var op := W(Key.Connect(isAnd));
          EmitPair(W(Key.Open), l.value, InlineExpr(first, aliases), op, r.value, InlineExpr(second, aliases),
                   W(Key.Close),
                   offset, old(params), between, params);
          sql := Some(W(Key.Open) + l.value + op + r.value + W(Key.Close));
        case Not(inner) =>
          var x := CompileExpr(inner);
          if x.None? { return None; }
          EmitAround(W(Key.NotOpen), x.value, InlineExpr(inner, aliases), W(Key.Close), offset, old(params), params);
          sql := Some(W(Key.NotOpen) + x.value + W(Key.Close));
      }
    }

    method CompileBetween(e: Expr) returns (sql: Option<Sql>)
      requires e.Between?
      modifies this`params
      ensures Emitted(sql, InlineExpr(e, aliases), offset, old(params), params)
      decreases e, 0
    {
      var x := CompileScalar(e.operand);
      if x.None? { return None; }
      ghost var p1 := params;
      var lower := CompileScalar(e.lower);
      if lower.None? { return None; }
      ghost var p2 := params;
      var upper := CompileScalar(e.upper);
      if upper.None? { return None; }
      var word := W(Key.Between(e.negated));
      EmitPair([], lower.value, InlineScalar(e.lower, aliases), W(Key.Connect(true)), upper.value,
               InlineScalar(e.upper, aliases), [],
               offset, p1, p2, params);
      EmitPair([], x.value, InlineScalar(e.operand, aliases), word, [] + lower.value + W(Key.Connect(true))
               + upper.value + [],
               Pair([], InlineScalar(e.lower, aliases), W(Key.Connect(true)), InlineScalar(e.upper, aliases), []), [],
               offset, old(params), p1, params);
      sql := Some([] + x.value + word + ([] + lower.value + W(Key.Connect(true)) + upper.value + []) + []);
    }

    method BindList(vs: seq<Value>) returns (sql: Sql)
      modifies this`params
      ensures Emitted(Some(sql), Some(LiteralList(vs, true)), offset, old(params), params)
    {
      sql := [];
      ghost var done := [];
      EmitPlain([], offset, params);
      EmitStart(Some(LiteralList(vs, true)));
      assert vs[0..] == vs;
      for i := 0 to |vs|
        invariant Emitted(Some(sql), Some(done), offset, old(params), params)
        invariant Some(LiteralList(vs, true)) == Then(Some(done), Some(LiteralList(vs[i..], i == 0)))
      {
        ghost var before := params;
        var hole := Bind(vs[i]);
        assert vs[i..][1..] == vs[i + 1..];
        PairOfOne(Separator(i == 0, Key.Comma), Literal(vs[i]), LiteralList(vs[i + 1..], false));
        EmitNext(sql, done, Separator(i == 0, Key.Comma), hole, Some([Literal(vs[i])]),
                 Some(LiteralList(vs[i + 1..], false)),
                 Some(LiteralList(vs, true)), offset, old(params), before, params);
        sql := sql + Separator(i == 0, Key.Comma) + hole;
        done := done + Separator(i == 0, Key.Comma) + [Literal(vs[i])];
      }
      EmitEnd(done);
    }

    /** A nested query is compiled by itself, with placeholders that count on from those used so far,
        and its parameters are appended. */
    method CompileNested(q: Select, override: string, extra: Option<Extra>) returns (sql: Option<Sql>)
      modifies this`params
      ensures Emitted(sql, InlineSelect(q, override, extra), offset, old(params), params)
      decreases q, 3
    {
      var nested := CompileSelect(q, override, extra, offset + |params|);
      if nested.None? { return None; }
      EmitNested(nested.value.sql, InlineSelect(q, override, extra), offset, params, nested.value.params);
      params := params + nested.value.params;
      sql := Some(nested.value.sql);
    }

    // ----- clauses

    method CompileProjection(p: Projection) returns (sql: Option<Sql>)
      modifies this`params
      ensures Emitted(sql, InlineProjection(p, aliases), offset, old(params), params)
      decreases p, 2
    {
      var expression := CompileScalar(p.expression);
      if expression.None? { return None; }
      var alias := match p.alias case None => [] case Some(a) => W(Key.As) + [Name(a)];
      EmitAround([], expression.value, InlineScalar(p.expression, aliases), alias, offset, old(params), params);
      sql := Some([] + expression.value + alias);
    }

    method CompileProjections(ps: seq<Projection>) returns (sql: Option<Sql>)
      modifies this`params
      ensures Emitted(sql, InlineProjections(ps, aliases, true), offset, old(params), params)
      decreases ps, 3
    {
      var out := [];
      ghost var done := [];
      EmitPlain([], offset, params);
      EmitStart(InlineProjections(ps, aliases, true));
      assert ps[0..] == ps;
      for i := 0 to |ps|
        invariant Emitted(Some(out), Some(done), offset, old(params), params)
        invariant InlineProjections(ps, aliases, true) == Then(Some(done), InlineProjections(ps[i..], aliases, i == 0))
      {
        ghost var before := params;
        var projection := CompileProjection(ps[i]);
        if projection.None? { return None; }
        assert ps[i..][1..] == ps[i + 1..];
        EmitNext(out, done, Separator(i == 0, Key.Comma), projection.value, InlineProjection(ps[i], aliases),
                 InlineProjections(ps[i + 1..], aliases, false), InlineProjections(ps, aliases, true),
                 offset, old(params), before, params);
        out := out + Separator(i == 0, Key.Comma) + projection.value;
        done := done + Separator(i == 0, Key.Comma) + InlineProjection(ps[i], aliases).value;
      }
      EmitEnd(done);
      sql := Some(out);
    }

    method CompileSelectList(q: Select, rootAlias: string) returns (sql: Option<Sql>)
      modifies this`params
      ensures Emitted(sql, SelectList(q, rootAlias, aliases), offset, old(params), params)
      decreases q, 1
    {
      var head := W(Key.Select) + (if q.distinct then W(Key.Distinctly) else []);
      if q.projections == [] {
        var columns := RootColumns(q.columns, rootAlias, true);
        EmitPlain(columns, offset, params);
        EmitAround(head, columns, Some(columns), W(Key.From), offset, params, params);
        return Some(head + columns + W(Key.From));
      }
      var list := CompileProjections(q.projections);
      if list.None? { return None; }
      EmitAround(head, list.value, InlineProjections(q.projections, aliases, true), W(Key.From), offset,
                 old(params), params);
      sql := Some(head + list.value + W(Key.From));
    }

    method CompileCte(c: Cte) returns (sql: Option<Sql>)
      modifies this`params
      ensures Emitted(sql, InlineCte(c), offset, old(params), params)
      decreases c, 2
    {
      var nested := CompileNested(c.query, "", None);
      if nested.None? { return None; }
      EmitAround(CteHead(c), nested.value, InlineSelect(c.query, "", None), W(Key.Close), offset, old(params), params);
      sql := Some(CteHead(c) + nested.value + W(Key.Close));
    }

    method CompileCtes(cs: seq<Cte>) returns (sql: Option<Sql>)
      modifies this`params
      ensures Emitted(sql, InlineCtes(cs, true), offset, old(params), params)
      decreases cs, 3
    {
      var out := [];
      ghost var done := [];
      EmitPlain([], offset, params);
      EmitStart(InlineCtes(cs, true));
      assert cs[0..] == cs;
      for i := 0 to |cs|
        invariant Emitted(Some(out), Some(done), offset, old(params), params)
        invariant InlineCtes(cs, true) == Then(Some(done), InlineCtes(cs[i..], i == 0))
      {
        ghost var before := params;
        var cte := CompileCte(cs[i]);
        if cte.None? { return None; }
        assert cs[i..][1..] == cs[i + 1..];
        EmitNext(out, done, Separator(i == 0, Key.Comma), cte.value, InlineCte(cs[i]),
                 InlineCtes(cs[i + 1..], false), InlineCtes(cs, true), offset, old(params), before, params);
        out := out + Separator(i == 0, Key.Comma) + cte.value;
        done := done + Separator(i == 0, Key.Comma) + InlineCte(cs[i]).value;
      }
      EmitEnd(done);
      sql := Some(out);
    }

    method CompileCteClause(q: Select) returns (sql: Option<Sql>)
      modifies this`params
      ensures Emitted(sql, CtesSql(q), offset, old(params), params)
      decreases q, 1
    {
      if q.ctes == [] {
        EmitPlain([], offset, params);
        return Some([]);
      }
      var head := W(Key.With(AnyRecursive(q.ctes)));
      var list := CompileCtes(q.ctes);
      if list.None? { return None; }
      EmitAround(head, list.value, InlineCtes(q.ctes, true), W(Key.Space), offset, old(params), params);
      sql := Some(head + list.value + W(Key.Space));
    }

    method CompileSource(q: Select, rootAlias: string) returns (sql: Option<Sql>)
      modifies this`params
      ensures Emitted(sql, InlineSource(q, rootAlias), offset, old(params), params)
      decreases q, 1
    {
      match q.source {
        case From(name) =>
          var text := [Name(name)] + if rootAlias != "" then W(Key.As) + [Name(rootAlias)] else [];
          EmitPlain(text, offset, params);
          sql := Some(text);
        case Derived(alias, query) =>
          var nested := CompileNested(query, "", None);
          if nested.None? { return None; }
          var after := W(Key.CloseAs) + [Name(if rootAlias == "" then alias else rootAlias)];
          EmitAround(W(Key.Open), nested.value, InlineSelect(query, "", None), after, offset, old(params), params);
          sql := Some(W(Key.Open) + nested.value + after);
      }
    }

    /** The condition of the query itself, and then what relation filters add to it. */
    method CompileCondition(q: Select, extra: Option<Extra>, rootAlias: string) returns (sql: Option<Sql>)
      modifies this`params
      ensures Emitted(sql, InlineCondition(q, extra, rootAlias, aliases), offset, old(params), params)
      decreases q, 0
    {
      var own := Some([]);
      EmitPlain([], offset, params);
      if q.condition.Where? {
        own := CompileExpr(q.condition.e);
        if own.None? { return None; }
      }
      ghost var between := params;
      var added := CompileExtra(q.filters, extra, rootAlias, offset + |params|);
      if added.None? { return None; }
      ghost var x := InlineExtra(q.filters, extra, rootAlias);
      EmitNested(added.value.sql, x, offset, params, added.value.params);
      params := params + added.value.params;
      NumberEmpty(x.value, offset + |between|);
      hide Emitted;
      if added.value.sql == [] {
        assert params == between;
        if q.condition.Always? { return Some([]); }
        EmitAround(W(Key.Where), own.value, InlineExpr(q.condition.e, aliases), [], offset, old(params), params);
        return Some(W(Key.Where) + own.value + []);
      }
      if q.condition.Always? {
        EmitAround(W(Key.Where), added.value.sql, x, [], offset, old(params), params);
        return Some(W(Key.Where) + added.value.sql + []);
      }
      EmitPair(W(Key.WhereOpen), own.value, InlineExpr(q.condition.e, aliases), W(Key.CloseAndOpen), added.value.sql,
               x, W(Key.Close),
               offset, old(params), between, params);
      sql := Some(W(Key.WhereOpen) + own.value + W(Key.CloseAndOpen) + added.value.sql + W(Key.Close));
    }

    method CompileGroup(q: Select) returns (sql: Option<Sql>)
      modifies this`params
      ensures Emitted(sql, Pair([], GroupSql(q, aliases), [], HavingSql(q, aliases), []), offset, old(params), params)
      decreases q, 0
    {
      var group := GroupSql(q, aliases);
      if group.None? { return None; }
      EmitPlain(group.value, offset, params);
      var having := [];
      EmitPlain([], offset, params);
      if q.having.Where? {
        var x := CompileExpr(q.having.e);
        if x.None? { return None; }
        EmitAround(W(Key.Having), x.value, InlineExpr(q.having.e, aliases), [], offset, old(params), params);
        having := W(Key.Having) + x.value + [];
      }
      EmitPair([], group.value, group, [], having, HavingSql(q, aliases), [], offset, old(params), old(params), params);
      sql := Some([] + group.value + [] + having + []);
    }

    /** Numbers the joined tables, and makes them known to the expressions. */
    method CompileJoins(joins: seq<Join>, rootAlias: string, correlated: bool) returns (sql: Option<Sql>)
      modifies this`aliases
      ensures sql.None? <==> Joined(joins, old(aliases), rootAlias, correlated, 1, 0).None?
      ensures sql.Some? ==> IsPlain(sql.value)
                            && Joined(joins, old(aliases), rootAlias, correlated, 1, 0) == Some((aliases, sql.value))
    {
      var out := [];
      var entity, pivot := 1, 0;
      assert joins[0..] == joins;
      RestStart(Joined(joins, aliases, rootAlias, correlated, 1, 0));
      for i := 0 to |joins|
        invariant IsPlain(out)
        invariant Joined(joins, old(aliases), rootAlias, correlated, 1, 0)
               == match Joined(joins[i..], aliases, rootAlias, correlated, entity, pivot)
                  case None => None case Some((all, rest)) => Some((all, out + rest))
      {
        var j := joins[i];
        if j.owner !in aliases { return None; }
        assert joins[i..][1..] == joins[i + 1..];
        var owner := aliases[j.owner];
        var target := TargetAlias(rootAlias, correlated, entity);
        var pivotAlias := PivotAlias(rootAlias, correlated, pivot);
        entity := entity + 1;
        if j.pivot.Some? { pivot := pivot + 1; }
        if j.target !in aliases { aliases := aliases[j.target := target]; }
        RestAfter(out, JoinSql(j, owner, target, pivotAlias),
                  Joined(joins[i + 1..], aliases, rootAlias, correlated, entity, pivot));
        out := out + JoinSql(j, owner, target, pivotAlias);
      }
      assert out + [] == out;
      sql := Some(out);
    }

    method CompileFilter(f: Filter, rootAlias: string) returns (sql: Option<Sql>)
      modifies this`params
      ensures Emitted(sql, InlineFilter(f, rootAlias), offset, old(params), params)
      decreases f, 2
    {
      var extra := Extra(f.relation, rootAlias);
      var child := CompileNested(f.child, rootAlias + "_rel", Some(extra));
      if child.None? { return None; }
      EmitAround(FilterOpening(f.negated), child.value, InlineSelect(f.child, rootAlias + "_rel", Some(extra)),
                 FilterClosing(),
                 offset, old(params), params);
      sql := Some(FilterOpening(f.negated) + child.value + FilterClosing());
    }

    method CompileFilters(fs: seq<Filter>, rootAlias: string) returns (sql: Option<Sql>)
      modifies this`params
      ensures Emitted(sql, InlineFilters(fs, rootAlias, true), offset, old(params), params)
      decreases fs, 3
    {
      var out := [];
      ghost var done := [];
      EmitPlain([], offset, params);
      EmitStart(InlineFilters(fs, rootAlias, true));
      assert fs[0..] == fs;
      for i := 0 to |fs|
        invariant Emitted(Some(out), Some(done), offset, old(params), params)
        invariant InlineFilters(fs, rootAlias, true) == Then(Some(done), InlineFilters(fs[i..], rootAlias, i == 0))
      {
        ghost var before := params;
        var filter := CompileFilter(fs[i], rootAlias);
        if filter.None? { return None; }
        assert fs[i..][1..] == fs[i + 1..];
        EmitNext(out, done, Separator(i == 0, Key.Connect(true)), filter.value, InlineFilter(fs[i], rootAlias),
                 InlineFilters(fs[i + 1..], rootAlias, false), InlineFilters(fs, rootAlias, true),
                 offset, old(params), before, params);
        out := out + Separator(i == 0, Key.Connect(true)) + filter.value;
        done := done + Separator(i == 0, Key.Connect(true)) + InlineFilter(fs[i], rootAlias).value;
      }
      EmitEnd(done);
      sql := Some(out);
    }

    method CompileSetOperation(o: SetOperation) returns (sql: Option<Sql>)
      modifies this`params
      ensures Emitted(sql, InlineSetOperation(o), offset, old(params), params)
      decreases o, 2
    {
      var nested := CompileNested(o.query, "", None);
      if nested.None? { return None; }
      var op := W(Key.Combine(o.op));
      EmitAround(op, nested.value, InlineSelect(o.query, "", None), [], offset, old(params), params);
      sql := Some(op + nested.value + []);
    }

    method CompileSetOperations(os: seq<SetOperation>) returns (sql: Option<Sql>)
      modifies this`params
      ensures Emitted(sql, InlineSetOperations(os), offset, old(params), params)
      decreases os, 3
    {
      var out := [];
      ghost var done := [];
      EmitPlain([], offset, params);
      EmitStart(InlineSetOperations(os));
      assert os[0..] == os;
      for i := 0 to |os|
        invariant Emitted(Some(out), Some(done), offset, old(params), params)
        invariant InlineSetOperations(os) == Then(Some(done), InlineSetOperations(os[i..]))
      {
        ghost var before := params;
        var operation := CompileSetOperation(os[i]);
        if operation.None? { return None; }
        assert os[i..][1..] == os[i + 1..];
        EmitNext(out, done, [], operation.value, InlineSetOperation(os[i]),
                 InlineSetOperations(os[i + 1..]), InlineSetOperations(os), offset, old(params), before, params);
        out := out + [] + operation.value;
        done := done + [] + InlineSetOperation(os[i]).value;
      }
      EmitEnd(done);
      sql := Some(out);
    }
  }

  datatype CompiledQuery = CompiledQuery(sql: Sql, params: seq<Value>)

  /** A compiled query by itself, under a dialect whose placeholders count on from `offset`. */
  ghost predicate Compiled(r: Option<CompiledQuery>, spec: Option<Sql>, offset: nat) {
    && (r.None? <==> spec.None?)
    && (r.Some? ==> Emitted(Some(r.value.sql), spec, offset, [], r.value.params))
  }

  method CompileSelect(q: Select, override: string, extra: Option<Extra>,
                       offset: nat)
    returns (r: Option<CompiledQuery>)
    ensures Compiled(r, InlineSelect(q, override, extra), offset)
    decreases q, 2
  {
    var ctx := new CompileContext(offset);
    var rootAlias := RootAlias(q, override, q.filters.Filtered? || extra.Some?);
    var ctes := ctx.CompileCteClause(q);
    if ctes.None? { return None; }
    ghost var p1 := ctx.params;
    ctx.aliases := map[q.root := rootAlias];
    var joins := ctx.CompileJoins(q.joins, rootAlias, override != "");
    if joins.None? { return None; }
    ghost var aliases := ctx.aliases;
    assert Joined(q.joins, map[q.root := rootAlias], rootAlias, override != "", 1, 0) == Some((aliases, joins.value));
    var cteJoins := CteJoinList(q.cteJoins, ctx.aliases);
    if cteJoins.None? { return None; }
    var list := ctx.CompileSelectList(q, rootAlias);
    if list.None? { return None; }
    EmitThen(ctes.value, CtesSql(q), list.value, SelectList(q, rootAlias, aliases), offset, [], p1, ctx.params);
    ghost var p2 := ctx.params;
    var source := ctx.CompileSource(q, rootAlias);
    if source.None? { return None; }
    ghost var s2 := Then(CtesSql(q), SelectList(q, rootAlias, aliases));
    EmitThen(ctes.value + list.value, s2, source.value, InlineSource(q, rootAlias), offset, [], p2, ctx.params);
    ghost var p3, s3 := ctx.params, Then(s2, InlineSource(q, rootAlias));
    EmitPlain(cteJoins.value, offset, p3);
    EmitAround(joins.value, cteJoins.value, cteJoins, [], offset, p3, p3);
    EmitThen(ctes.value + list.value + source.value, s3, joins.value + cteJoins.value + [],
             Around(joins.value, cteJoins, []),
             offset, [], p3, p3);
    ghost var s4 := Then(s3, Around(joins.value, cteJoins, []));
    var base := ctes.value + list.value + source.value + (joins.value + cteJoins.value + []);
    r := CompileRest(ctx, q, extra, rootAlias, base, s4);
  }

  /** The clauses from the condition on. */
  method CompileRest(ctx: CompileContext, q: Select, extra: Option<Extra>, rootAlias: string, base: Sql,
                     ghost done: Option<Sql>)
    returns (r: Option<CompiledQuery>)
    requires Emitted(Some(base), done, ctx.offset, [], ctx.params)
    modifies ctx`params
    ensures Compiled(r, Then(Then(Then(Then(done, InlineCondition(q, extra, rootAlias, ctx.aliases)),
                                      Pair([], GroupSql(q, ctx.aliases), [], HavingSql(q, ctx.aliases), [])),
                                  InlineSetOperations(q.setOperations)), Tail(q, ctx.aliases)), ctx.offset)
    decreases q, 1
  {
    ghost var p0 := ctx.params;
    var condition := ctx.CompileCondition(q, extra, rootAlias);
    if condition.None? { return None; }
    EmitThen(base, done, condition.value, InlineCondition(q, extra, rootAlias, ctx.aliases), ctx.offset, [], p0,
             ctx.params);
    ghost var p1, s1 := ctx.params, Then(done, InlineCondition(q, extra, rootAlias, ctx.aliases));
    var group := ctx.CompileGroup(q);
    if group.None? { return None; }
    ghost var groupSpec := Pair([], GroupSql(q, ctx.aliases), [], HavingSql(q, ctx.aliases), []);
    EmitThen(base + condition.value, s1, group.value, groupSpec, ctx.offset, [], p1, ctx.params);
    ghost var p2, s2 := ctx.params, Then(s1, groupSpec);
    var operations := ctx.CompileSetOperations(q.setOperations);
    if operations.None? { return None; }
    EmitThen(base + condition.value + group.value, s2, operations.value, InlineSetOperations(q.setOperations),
             ctx.offset, [], p2, ctx.params);
    var tail := Tail(q, ctx.aliases);
    if tail.None? { return None; }
    EmitPlain(tail.value, ctx.offset, ctx.params);
    EmitThen(base + condition.value + group.value + operations.value, Then(s2, InlineSetOperations(q.setOperations)),
             tail.value, tail, ctx.offset, [], ctx.params, ctx.params);
    r := Some(CompiledQuery(base + condition.value + group.value + operations.value + tail.value, ctx.params));
  }

  /** The list of relation filters collects parameters of its own, under an offset of its own. */
  method CompileExtra(filters: Filters, extra: Option<Extra>, rootAlias: string, offset: nat)
    returns (r: Option<CompiledQuery>)
    ensures Compiled(r, InlineExtra(filters, extra, rootAlias), offset)
    decreases filters, 3
  {
    if filters.Plain? {
      var own := CompileOwn(extra, rootAlias, offset);
      return Some(own);
    }
    var fs := filters.list;
    var ctx := new CompileContext(offset);
    var list := ctx.CompileFilters(fs, rootAlias);
    if list.None? { return None; }
    ghost var between := ctx.params;
    var own := CompileOwn(extra, rootAlias, offset + |ctx.params|);
    EmitNested(own.sql, Some(OwnCondition(extra, rootAlias)), offset, ctx.params, own.params);
    ctx.params := ctx.params + own.params;
    var opening := if extra.None? then [] else Separator(fs == [], Key.Connect(true)) + W(Key.Open);
    var closing := if extra.None? then [] else W(Key.Close);
    EmitPair([], list.value, InlineFilters(fs, rootAlias, true), opening, own.sql,
             Some(OwnCondition(extra, rootAlias)), closing,
             offset, [], between, ctx.params);
    r := Some(CompiledQuery([] + list.value + opening + own.sql + closing, ctx.params));
  }

  /** The correlation, whose one parameter is the first of its own query. */
  method CompileOwn(extra: Option<Extra>, rootAlias: string, offset: nat) returns (r: CompiledQuery)
    ensures Compiled(Some(r), Some(OwnCondition(extra, rootAlias)), offset)
  {
    if extra.None? {
      EmitPlain([], offset, []);
      return CompiledQuery([], []);
    }
    var Extra(c, outer) := extra.value;
    match c {
      case Morph(idColumn, localColumn, typeColumn, typeValue) =>
        var before := QualifiedColumn(rootAlias, idColumn) + W(Key.Compare(Eq)) + QualifiedColumn(outer, localColumn)
                      + W(Key.Connect(true))
                      + QualifiedColumn(rootAlias, typeColumn) + W(Key.Compare(Eq));
        NumberOne(Text(typeValue), offset);
        EmitAround(before, [Hole(offset + 1)], Some([Literal(Text(typeValue))]), [], offset, [], [Text(typeValue)]);
        r := CompiledQuery(before + [Hole(offset + 1)] + [], [Text(typeValue)]);
        assert before + [Literal(Text(typeValue))] + [] == OwnCondition(extra, rootAlias);
      case _ =>
        r := CompiledQuery(CorrelationSql(c, rootAlias, outer), []);
        EmitPlain(r.sql, offset, []);
    }
  }

  lemma RestStart(r: Option<(Aliases, Sql)>)
    ensures (match r case None => None case Some((all, rest)) => Some((all, [] + rest))) == r
  {
    if r.Some? { assert [] + r.value.1 == r.value.1; }
  }

  lemma RestAfter(out: Sql, next: Sql, r: Option<(Aliases, Sql)>)
    ensures (match r case None => None case Some((all, rest)) => Some((all, out + (next + rest))))
         == (match r case None => None case Some((all, rest)) => Some((all, out + next + rest)))
  {
    if r.Some? { assert out + (next + r.value.1) == out + next + r.value.1; }
  }

  lemma EmitNested(sql: Sql, spec: Option<Sql>, offset: nat, before: seq<Value>, params: seq<Value>)
    requires Emitted(Some(sql), spec, offset + |before|, [], params)
    ensures Emitted(Some(sql), spec, offset, before, before + params)
  {
    assert [] + Bindings(spec.value) == Bindings(spec.value);
  }

  lemma NumberEmpty(t: Sql, k: nat)
    ensures Number(t, k) == [] <==> t == []
  {}

  lemma PairOfOne(sep: Sql, x: Token, rest: Sql)
    ensures Pair(sep, Some([x]), [], Some(rest), []) == Some(sep + [x] + rest)
  {
    assert sep + [x] + [] + rest + [] == sep + [x] + rest;
  }

  /** What holds of every compiled query: read left to right, its placeholders are `offset` + 1 to `offset` + n
      for its n parameters, and putting the parameters in their places gives the query with its values in place. */
  ghost predicate Faithful(r: CompiledQuery, inline: Sql, offset: nat) {
    && |Holes(r.sql)| == |r.params|
    && (forall i | 0 <= i < |r.params| :: Holes(r.sql)[i] == offset + 1 + i)
    && Substitute(r.sql, offset, r.params) == inline
  }

  lemma CompiledIsFaithful(r: CompiledQuery, inline: Sql, offset: nat)
    requires Compiled(Some(r), Some(inline), offset)
    ensures Faithful(r, inline, offset)
  {
    assert [] + Bindings(inline) == Bindings(inline);
    HolesCount(inline, offset);
    SubstituteNumbered(inline, offset, []);
  }

  /** A whole statement. Its parameters are the values of the query from left to right; and with them in place it
      is read as what the query means, exactly if operands of set operations are plain SELECTs. */
  method Compile(q: Select, offset: nat) returns (r: Option<CompiledQuery>)
    ensures r.None? <==> !Sound(q, "", None)
    ensures r.Some? ==> InlineSelect(q, "", None).Some?
    ensures r.Some? ==> Faithful(r.value, InlineSelect(q, "", None).value + W(Key.Semicolon), offset)
    ensures r.Some? ==> r.value.params == SelectValues(q, None)
    ensures r.Some? ==>
              var t := Substitute(r.value.sql, offset, r.value.params);
              ReadStatement(t) == Read(MeantSelect(q, "", None), W(Key.Semicolon)) <==> Flat(MeantSelect(q, "", None))
  {
    hide InlineSelect, Faithful, Sound, SelectValues, ReadStatement, MeantSelect, Flat, Substitute;
    SelectExists(q, "", None);
    r := CompileSelect(q, "", None, offset);
    if r.None? { return None; }
    ghost var inline := InlineSelect(q, "", None);
    EmitAround([], r.value.sql, inline, W(Key.Semicolon), offset, [], r.value.params);
    assert [] + inline.value + W(Key.Semicolon) == inline.value + W(Key.Semicolon);
    r := Some(CompiledQuery([] + r.value.sql + W(Key.Semicolon), r.value.params));
    StatementIsFaithful(r.value, q, offset);
  }

  lemma StatementIsFaithful(r: CompiledQuery, q: Select, offset: nat)
    requires InlineSelect(q, "", None).Some?
    requires Compiled(Some(r), Some(InlineSelect(q, "", None).value + W(Key.Semicolon)), offset)
    ensures Faithful(r, InlineSelect(q, "", None).value + W(Key.Semicolon), offset)
    ensures r.params == SelectValues(q, None)
    ensures var t := Substitute(r.sql, offset, r.params);
            ReadStatement(t) == Read(MeantSelect(q, "", None), W(Key.Semicolon)) <==> Flat(MeantSelect(q, "", None))
  {
    hide InlineSelect, Sound, SelectValues, ReadStatement, MeantSelect, Flat, Substitute, Number, Bindings, Holes;
    var text := InlineSelect(q, "", None).value;
    CompiledIsFaithful(r, text + W(Key.Semicolon), offset);
    SelectExists(q, "", None);
    SelectBinds(q, "", None);
    BindingsAppend(text, W(Key.Semicolon));
    PlainIs(W(Key.Semicolon));
    assert [] + (Bindings(text) + []) == Bindings(text);
    ReadsExactly(q);
  }

  lemma EmitStart(x: Option<Sql>)
    ensures Then(Some([]), x) == x
  {
    if x.Some? { assert [] + x.value == x.value; }
  }

  lemma EmitEnd(done: Sql)
    ensures Then(Some(done), Some([])) == Some(done)
  {
    assert done + [] == done;
  }

  lemma NumberOne(v: Value, k: nat)
    ensures Number([Literal(v)], k) == [Hole(k + 1)] && Bindings([Literal(v)]) == [v]
  {
    var t: Sql := [Literal(v)];
    assert t[0].Literal? && t[1..] == [];
    assert Number(t[1..], k + 1) == [] && Bindings(t[1..]) == [];
    assert Number(t, k) == [Hole(k + 1)] + [];
    assert Bindings(t) == [v] + [];
    assert [Hole(k + 1)] + [] == [Hole(k + 1)] && [v] + [] == [v];
  }
}
