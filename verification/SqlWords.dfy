/** The words of a statement, and their text. */
module SqlWords {
  import opened Wrappers
  import opened Decimals

  datatype CompareOp = Eq | Ne | Gt | Ge | Lt | Le

  datatype ArithmeticOp = Add | Subtract | Multiply | Divide | Modulo

  datatype AggregateKind = Count | Sum | Avg | Min | Max | Stddev | Variance

  datatype SetOperator = Union | UnionAll | Intersect | Except

  function AggregateName(kind: AggregateKind): string {
    match kind
    case Count => "COUNT"
    case Sum => "SUM"
    case Avg => "AVG"
    case Min => "MIN"
    case Max => "MAX"
    case Stddev => "STDDEV"
    case Variance => "VARIANCE"
  }

  predicate IsFunctionName(name: string) {
    && name != "" && (IsAlpha(name[0]) || name[0] == '_')
    && forall i | 0 <= i < |name| :: IsAlpha(name[i]) || IsDigit(name[i]) || name[i] == '_'
  }

  datatype Key =
    | Dot | Comma | Open | Close | Star | Space | Semicolon
    | Direction(ascending: bool) | Distinctly | OverOpen | PartitionBy | OrderInside
    | CaseBegin | CaseWhen | CaseThen | CaseElse | CaseEnd
    | Compare(cmp: CompareOp) | Calculate(op: ArithmeticOp) | Call(name: string)
    | IsNull(negated: bool) | Like(negated: bool) | Between(negated: bool) | InOpen(negated: bool)
    | Exists(negated: bool) | ExistsRow | NotOpen | Truth(holds: bool) | Connect(isAnd: bool)
    | With(recursive: bool) | AsOpen | ListOpen | Select | From | As | CloseAs | JoinOn(isLeft: bool) | On
    | Where | WhereOpen | CloseAndOpen | GroupBy | Having | Combine(setop: SetOperator)
    | OrderBy | Limit(rows: nat) | Offset(rows: nat)

  function Spelling(k: Key): string {
    match k
    case Dot => "."
    case Comma => ", "
    case Open => "("
    case Close => ")"
    case Star => "*"
    case Space => " "
    case Semicolon => ";"
    case Direction(ascending) => if ascending then " ASC" else " DESC"
    case Distinctly => "DISTINCT "
    case OverOpen => ") OVER ("
    case PartitionBy => "PARTITION BY "
    case OrderInside => "ORDER BY "
    case CaseBegin => "CASE"
    case CaseWhen => " WHEN "
    case CaseThen => " THEN "
    case CaseElse => " ELSE "
    case CaseEnd => " END"
    case Compare(cmp) =>
      (match cmp
       case Eq => " = "
       case Ne => " <> "
       case Gt => " > "
       case Ge => " >= "
       case Lt => " < "
       case Le => " <= ")
    case Calculate(op) =>
      (match op
       case Add => " + " case Subtract => " - " case Multiply => " * " case Divide => " / " case Modulo => " % ")
    case Call(name) => name + "("
    case IsNull(negated) => if negated then " IS NOT NULL" else " IS NULL"
    case Like(negated) => if negated then " NOT LIKE " else " LIKE "
    case Between(negated) => if negated then " NOT BETWEEN " else " BETWEEN "
    case InOpen(negated) => if negated then " NOT IN (" else " IN ("
    case Exists(negated) => if negated then "NOT EXISTS (" else "EXISTS ("
    case ExistsRow => "EXISTS (SELECT 1 FROM "
    case NotOpen => "NOT ("
    case Truth(holds) => if holds then "1 = 1" else "0 = 1"
    case Connect(isAnd) => if isAnd then " AND " else " OR "
    case With(recursive) => if recursive then "WITH RECURSIVE " else "WITH "
    case AsOpen => " AS ("
    case ListOpen => " ("
    case Select => "SELECT "
    case From => " FROM "
    case As => " AS "
    case CloseAs => ") AS "
    case JoinOn(isLeft) => if isLeft then " LEFT JOIN " else " INNER JOIN "
    case On => " ON "
    case Where => " WHERE "
    case WhereOpen => " WHERE ("
    case CloseAndOpen => ") AND ("
    case GroupBy => " GROUP BY "
    case Having => " HAVING "
    case Combine(setop) =>
      (match setop
       case Union => " UNION " case UnionAll => " UNION ALL " case Intersect => " INTERSECT " case Except => " EXCEPT ")
    case OrderBy => " ORDER BY "
    case Limit(rows) => " LIMIT " + ToString(rows)
    case Offset(rows) => " OFFSET " + ToString(rows)
  }

  // ----- a word is told by its spelling

  predicate Fixed(k: Key) { !k.Call? && !k.Limit? && !k.Offset? }

  /** A key that is used: a function has a name. */
  predicate Usable(k: Key) { k.Call? ==> IsFunctionName(k.name) }

  function Letter(w: string, i: nat): int { if i < |w| then w[i] as int else 0 }

  /** A number that is different for all the fixed words. */
  function Rank(w: string): int { |w| + Letter(w, 0) + Letter(w, 1) + Letter(w, 2) + 23 * Letter(w, 3) }

  function RankOf(k: Key): int
    requires Fixed(k)
  {
    match k
    case Dot => 47
    case Comma => 78
    case Open => 41
    case Close => 42
    case Star => 43
    case Space => 33
    case Semicolon => 60
    case Direction(b) => if b then 1725 else 2083
    case Distinctly => 2165
    case OverOpen => 2138
    case PartitionBy => 2172
    case OrderInside => 1825
    case CaseBegin => 1806
    case CaseWhen => 1784
    case CaseThen => 1781
    case CaseElse => 2092
    case CaseEnd => 1747
    case Compare(x) =>
      (match x case Eq => 128 case Ne => 894 case Gt => 129 case Ge => 895 case Lt => 127 case Le => 893)
    case Calculate(x) =>
      (match x case Add => 110 case Subtract => 112 case Multiply => 109 case Divide => 114 case Modulo => 104)
    case IsNull(b) => if b then 936 else 932
    case Like(b) => if b then 2131 else 1912
    case Between(b) => if b then 2134 else 2108
    case InOpen(b) => if b then 2130 else 924
    case Exists(b) => if b then 989 else 2147
    case ExistsRow => 2161
    case NotOpen => 982
    case Truth(b) => if b then 883 else 882
    case Connect(b) => if b then 1744 else 933
    case With(b) => if b then 1915 else 1905
    case AsOpen => 921
    case ListOpen => 74
    case Select => 1822
    case From => 2007
    case As => 920
    case CloseAs => 2052
    case JoinOn(b) => if b then 1798 else 1989
    case On => 929
    case Where => 1785
    case WhereOpen => 1786
    case CloseAndOpen => 1939
    case GroupBy => 2012
    case Having => 2155
    case Combine(x) => (match x case Union => 1881 case UnionAll => 1885 case Intersect => 2126 case Except => 1738)
    case OrderBy => 1767
  }

  /** Words of expressions, but for those of tests. */
  predicate InTerms(k: Key) {
    k.Dot? || k.Comma? || k.Open? || k.Close? || k.Star? || k.Space? || k.Semicolon? || k.Direction? || k.Distinctly?
    || k.OverOpen? || k.PartitionBy? || k.OrderInside? || k.CaseBegin? || k.CaseWhen? || k.CaseThen? || k.CaseElse?
    || k.CaseEnd?
    || k.Compare? || k.Calculate?
  }

  predicate InTests(k: Key) {
    k.IsNull? || k.Like? || k.Between? || k.InOpen? || k.Exists? || k.ExistsRow? || k.NotOpen? || k.Truth? || k.Connect?
  }

  lemma RankInTerms(k: Key)
    requires InTerms(k)
    ensures Fixed(k) && Rank(Spelling(k)) == RankOf(k)
  {}

  lemma RankInTests(k: Key)
    requires InTests(k)
    ensures Fixed(k) && Rank(Spelling(k)) == RankOf(k)
  {}

  lemma RankElsewhere(k: Key)
    requires Fixed(k) && !InTerms(k) && !InTests(k)
    ensures Rank(Spelling(k)) == RankOf(k)
  {}

  lemma RankOfText(k: Key)
    requires Fixed(k)
    ensures Rank(Spelling(k)) == RankOf(k)
  {
    hide Rank, Spelling, RankOf;
    if InTerms(k) { RankInTerms(k); } else if InTests(k) { RankInTests(k); } else { RankElsewhere(k); }
  }

  /** The fixed word of a rank. */
  function RankedAs(rank: int): Key {
    match rank
    case 47 => Dot
    case 78 => Comma
    case 41 => Open
    case 42 => Close
    case 43 => Star
    case 33 => Space
    case 60 => Semicolon
    case 1725 => Direction(true)
    case 2083 => Direction(false)
    case 2165 => Distinctly
    case 2138 => OverOpen
    case 2172 => PartitionBy
    case 1825 => OrderInside
    case 1806 => CaseBegin
    case 1784 => CaseWhen
    case 1781 => CaseThen
    case 2092 => CaseElse
    case 1747 => CaseEnd
    case 128 => Compare(Eq)
    case 894 => Compare(Ne)
    case 129 => Compare(Gt)
    case 895 => Compare(Ge)
    case 127 => Compare(Lt)
    case 893 => Compare(Le)
    case 110 => Calculate(Add)
    case 112 => Calculate(Subtract)
    case 109 => Calculate(Multiply)
    case 114 => Calculate(Divide)
    case 104 => Calculate(Modulo)
    case 936 => IsNull(true)
    case 932 => IsNull(false)
    case 2131 => Like(true)
    case 1912 => Like(false)
    case 2134 => Between(true)
    case 2108 => Between(false)
    case 2130 => InOpen(true)
    case 924 => InOpen(false)
    case 989 => Exists(true)
    case 2147 => Exists(false)
    case 2161 => ExistsRow
    case 982 => NotOpen
    case 883 => Truth(true)
    case 882 => Truth(false)
    case 1744 => Connect(true)
    case 933 => Connect(false)
    case 1915 => With(true)
    case 1905 => With(false)
    case 921 => AsOpen
    case 74 => ListOpen
    case 1822 => Select
    case 2007 => From
    case 920 => As
    case 2052 => CloseAs
    case 1798 => JoinOn(true)
    case 1989 => JoinOn(false)
    case 929 => On
    case 1785 => Where
    case 1786 => WhereOpen
    case 1939 => CloseAndOpen
    case 2012 => GroupBy
    case 2155 => Having
    case 1881 => Combine(Union)
    case 1885 => Combine(UnionAll)
    case 2126 => Combine(Intersect)
    case 1738 => Combine(Except)
    case 1767 => OrderBy
    case _ => Dot
  }

  lemma TellsInTerms(k: Key)
    requires InTerms(k)
    ensures Fixed(k) && RankedAs(RankOf(k)) == k
  {}

  lemma TellsInTests(k: Key)
    requires InTests(k)
    ensures Fixed(k) && RankedAs(RankOf(k)) == k
  {}

  lemma TellsElsewhere(k: Key)
    requires Fixed(k) && !InTerms(k) && !InTests(k)
    ensures RankedAs(RankOf(k)) == k
  {}

  lemma RankTells(k: Key)
    requires Fixed(k)
    ensures RankedAs(RankOf(k)) == k
  {
    hide RankOf, RankedAs;
    if InTerms(k) { TellsInTerms(k); } else if InTests(k) { TellsInTests(k); } else { TellsElsewhere(k); }
  }

  lemma FixedTells(a: Key, b: Key)
    requires Fixed(a) && Fixed(b) && Spelling(a) == Spelling(b)
    ensures a == b
  {
    hide *;
    RankOfText(a);
    RankOfText(b);
    RankTells(a);
    RankTells(b);
  }

  /** The text of a call is a name and a parenthesis. */
  predicate IsCall(w: string) { |w| > 1 && w[|w| - 1] == '(' && IsFunctionName(w[..|w| - 1]) }

  /** A fixed word that ends in a parenthesis has a space before it, if anything. */
  lemma FixedIsNoCall(k: Key)
    requires Fixed(k)
    ensures !IsCall(Spelling(k))
  {
    FixedEnds(k);
    hide Spelling;
    var w := Spelling(k);
    if |w| > 1 && w[|w| - 1] == '(' { assert w[..|w| - 1][|w| - 2] == ' '; }
  }

  predicate SpaceBeforeOpen(w: string) { |w| > 1 && w[|w| - 1] == '(' ==> w[|w| - 2] == ' ' }

  lemma EndsInTerms(k: Key)
    requires InTerms(k)
    ensures SpaceBeforeOpen(Spelling(k))
  {}

  lemma EndsElsewhere(k: Key)
    requires Fixed(k) && !InTerms(k)
    ensures SpaceBeforeOpen(Spelling(k))
  {}

  lemma FixedEnds(k: Key)
    requires Fixed(k)
    ensures SpaceBeforeOpen(Spelling(k))
  {
    hide Spelling, SpaceBeforeOpen;
    if InTerms(k) { EndsInTerms(k); } else { EndsElsewhere(k); }
  }

  lemma CallIsCall(name: string)
    requires IsFunctionName(name)
    ensures IsCall(Spelling(Call(name))) && Spelling(Call(name))[..|Spelling(Call(name))| - 1] == name
  {}

  /** The text begins as that of LIMIT, or of OFFSET, does and that of no other word. */
  predicate IsLimit(w: string) { |w| > 7 && w[0] == ' ' && w[1] == 'L' && w[3] == 'M' }

  predicate IsOffset(w: string) { |w| > 8 && w[0] == ' ' && w[1] == 'O' && w[2] == 'F' }

  lemma FixedIsNoNumber(k: Key)
    requires Fixed(k)
    ensures !IsLimit(Spelling(k)) && !IsOffset(Spelling(k))
  {}

  lemma NumberIsTold(n: nat)
    ensures var w := Spelling(Limit(n)); IsLimit(w) && w[7..] == ToString(n) && !IsCall(w) && !IsOffset(w)
    ensures var w := Spelling(Offset(n)); IsOffset(w) && w[8..] == ToString(n) && !IsCall(w) && !IsLimit(w)
  {
    var l, o := Spelling(Limit(n)), Spelling(Offset(n));
    assert IsDigit(l[|l| - 1]) && IsDigit(o[|o| - 1]);
  }

  lemma NumberTells(a: nat, b: nat)
    requires ToString(a) == ToString(b)
    ensures a == b
  {
    NumberOfDigits(a);
    NumberOfDigits(b);
  }

  lemma CallIsNoNumber(name: string)
    requires IsFunctionName(name)
    ensures !IsLimit(Spelling(Call(name))) && !IsOffset(Spelling(Call(name)))
  {
    assert Spelling(Call(name))[0] == name[0];
  }

  /** What kind of word a text is. */
  lemma Kinds(k: Key)
    requires Usable(k)
    ensures k.Call? <==> IsCall(Spelling(k))
    ensures k.Limit? <==> IsLimit(Spelling(k))
    ensures k.Offset? <==> IsOffset(Spelling(k))
    ensures k.Call? ==> |Spelling(k)| > 0 && Spelling(k)[..|Spelling(k)| - 1] == k.name
    ensures k.Limit? ==> |Spelling(k)| > 7 && Spelling(k)[7..] == ToString(k.rows)
    ensures k.Offset? ==> |Spelling(k)| > 8 && Spelling(k)[8..] == ToString(k.rows)
  {
    hide Spelling, IsCall, IsFunctionName, ToString;
    match k {
      case Call(name) =>
        CallIsCall(name);
        CallIsNoNumber(name);
      case Limit(n) => NumberIsTold(n);
      case Offset(n) => NumberIsTold(n);
      case _ =>
        FixedIsNoCall(k);
        FixedIsNoNumber(k);
    }
  }

  /** No two words have one text. */
  lemma TextTells(a: Key, b: Key)
    requires Usable(a) && Usable(b) && Spelling(a) == Spelling(b)
    ensures a == b
  {
    hide Spelling, IsLimit, IsOffset, IsCall, IsFunctionName, ToString;
    Kinds(a);
    Kinds(b);
    if Fixed(a) && Fixed(b) {
      FixedTells(a, b);
    } else if a.Limit? {
      NumberTells(a.rows, b.rows);
    } else if a.Offset? {
      NumberTells(a.rows, b.rows);
    }
  }
}
