/** The exact text of a compiled query.  `QueryCompiler` writes pieces, which a lexer can be
    proved against; here the same text is put together from strings, as
    `backend/app/connectors/registry.py`, lines 98-236, does it. */
module QueryText {
  import opened Wrappers
  import opened Texts
  import opened SqlText
  import opened QueryCompiler

  /** Strings with a separator between any two. */
  function Between(parts: seq<string>, sep: string): string {
    if parts == [] then ""
    else if |parts| == 1 then parts[0]
    else parts[0] + sep + Between(parts[1..], sep)
  }

  function SqlScalar(v: Scalar): string {
    match v
    case BoolV(b) => if b then "1" else "0"
    case NumberV(text) => text
    case TextV(s) => SqlStr(s)
  }

  function SqlScalars(vs: seq<Scalar>): seq<string> {
    if vs == [] then [] else [SqlScalar(vs[0])] + SqlScalars(vs[1..])
  }

  function SqlTime(v: Scalar): string {
    if v.TextV? && |v.s| > 5 && v.s[..4] == "now-" && DigitRun(v.s[4..]) == |v.s| - 5 && v.s[|v.s| - 1] in "smhd" then
      "now() - INTERVAL " + v.s[4..|v.s| - 1] + " " +
      (match v.s[|v.s| - 1]
       case 's' => "SECOND"
       case 'm' => "MINUTE"
       case 'h' => "HOUR"
       case _ => "DAY")
    else if v == TextV("now") then "now()"
    else "parseDateTime64BestEffort(" + SqlScalar(v) + ")"
  }

  function SqlBounds(col: string, bounds: seq<Bound>): seq<string> {
    if bounds == [] then []
    else
      var b := bounds[0];
      var rhs := if col == "timestamp" then SqlTime(b.value) else SqlScalar(b.value);
      (match b.op
       case "gte" => [col + " >= " + rhs]
       case "gt" => [col + " > " + rhs]
       case "lte" => [col + " <= " + rhs]
       case "lt" => [col + " < " + rhs]
       case _ => [])
      + SqlBounds(col, bounds[1..])
  }

  function SqlSearches(choices: seq<Atom>): seq<string> {
    if choices == [] then [] else [SqlSearch(choices[0])] + SqlSearches(choices[1..])
  }

  /** One term of a query string: it compares a column with a number or a text. */
  function SqlSearch(a: Atom): string {
    match a
    case Cmp(col, op, Constant(l)) =>
      col + (match op
             case Eq => " = "
             case Ge => " >= "
             case Gt => " > "
             case Le => " <= "
             case Lt => " < "
             case Ilike => " ILIKE ")
      + SqlLiteral(l)
    case Has(col, l) => "has(" + col + ", " + SqlLiteral(l) + ")"
    case _ => ""
  }

  function SqlLiteral(l: Lit): string {
    match l
    case Number(negative, digits) => (if negative then "-" else "") + digits
    case Quoted(s) => SqlStr(s)
  }

  function SqlTerm(t: Table, term: string): string {
    match TermOf(t, term)
    case Fielded(a) => SqlSearch(a)
    case Free(choices) => "(" + Between(SqlSearches(choices), " OR ") + ")"
  }

  function SqlChain(t: Table, split: seq<string>): string
    requires |split| % 2 == 1
  {
    SqlTerm(t, split[0]) +
    if |split| == 1 then "" else (if split[1] == "OR" then " OR " else " AND ") + SqlChain(t, split[2..])
  }

  function SqlNots(parts: seq<string>): seq<string> {
    if parts == [] then [] else ["NOT (" + parts[0] + ")"] + SqlNots(parts[1..])
  }

  function SqlAll(parts: seq<string>): string {
    if parts == [] then "1" else "(" + Between(parts, " AND ") + ")"
  }

  function Sql(t: Table, q: Query): Result<string, Error>
    decreases q
  {
    match q
    case Bool(must, mustNot, should, _) =>
      var m :- Sqls(t, must);
      var n :- Sqls(t, mustNot);
      var s :- Sqls(t, should);
      Success(SqlAll(m + SqlNots(n) + if s == [] then [] else ["(" + Between(s, " OR ") + ")"]))
    case Range(field, bounds) =>
      if field !in t.fields then Failure(Unmapped(field)) else Success(SqlAll(SqlBounds(t.fields[field], bounds)))
    case Term(field, v) =>
      if field !in t.fields then Failure(Unmapped(field))
      else if t.fields[field] in t.arrays then Success("has(" + t.fields[field] + ", " + SqlScalar(v) + ")")
      else Success(t.fields[field] + " = " + SqlScalar(v))
    case Terms(field, vs) =>
      if field !in t.fields then Failure(Unmapped(field))
      else if t.fields[field] in t.arrays then
        Success("hasAny(" + t.fields[field] + ", [" + Between(SqlScalars(vs), ", ") + "])")
      else Success(t.fields[field] + " IN (" + Between(SqlScalars(vs), ", ") + ")")
    case Ids(vs) => Success("alert_id IN (" + Between(SqlScalars(vs), ", ") + ")")
    case QueryString(text) =>
      var s := Strip(text, IsBlank);
      Success(if s == "" then "1" else "(" + SqlChain(t, Split(s)) + ")")
    case MatchAll => Success("1")
    case Other(op) => Failure(Unsupported(op))
  }

  function Sqls(t: Table, qs: seq<Query>): Result<seq<string>, Error>
    decreases qs
  {
    if qs == [] then Success([])
    else
      var first :- Sql(t, qs[0]);
      var rest :- Sqls(t, qs[1..]);
      Success([first] + rest)
  }

  // ---------------------------------------------------------------- the text of pieces

  lemma {:induction false} TextConcat(a: seq<Piece>, b: seq<Piece>)
    ensures Text(a + b) == Text(a) + Text(b)
  {
    if a == [] {
      assert a + b == b;
    } else {
      assert (a + b)[1..] == a[1..] + b;
      TextConcat(a[1..], b);
    }
  }

  lemma TextAround(a: seq<Piece>, b: seq<Piece>, c: seq<Piece>)
    ensures Text(a + b + c) == Text(a) + Text(b) + Text(c)
  {
    TextConcat(a + b, c);
    TextConcat(a, b);
  }

  lemma TextOne(p: Piece)
    ensures Text([p]) == PieceText(p)
  {
    assert [p][1..] == [];
  }

  lemma TextTwo(p: Piece, q: Piece)
    ensures Text([p, q]) == PieceText(p) + PieceText(q)
  {
    assert [p, q][1..] == [q];
    TextOne(q);
  }

  lemma TextThree(p: Piece, q: Piece, r: Piece)
    ensures Text([p, q, r]) == PieceText(p) + PieceText(q) + PieceText(r)
  {
    assert [p, q, r][1..] == [q, r];
    TextTwo(q, r);
  }

  function TextsOf(parts: seq<seq<Piece>>): (r: seq<string>)
    ensures |r| == |parts| && forall i :: 0 <= i < |r| ==> r[i] == Text(parts[i])
  {
    if parts == [] then [] else [Text(parts[0])] + TextsOf(parts[1..])
  }

  lemma {:induction false} JoinText(parts: seq<seq<Piece>>, joiner: Token, sep: string)
    requires sep == " " + TokenText(joiner) + " "
    ensures Text(Join(parts, joiner)) == Between(TextsOf(parts), sep)
  {
    hide Text, PieceText;
    if parts == [] {
      EmptyText();
    } else if |parts| > 1 {
      JoinText(parts[1..], joiner, sep);
      TextAround(parts[0], [Space, Lexeme(joiner), Space], Join(parts[1..], joiner));
      SeparatorText(joiner);
      assert TextsOf(parts)[1..] == TextsOf(parts[1..]);
    }
  }

  lemma EmptyText()
    ensures Text([]) == ""
  {
  }

  lemma SeparatorText(joiner: Token)
    ensures Text([Space, Lexeme(joiner), Space]) == " " + TokenText(joiner) + " "
  {
    hide Text;
    TextThree(Space, Lexeme(joiner), Space);
  }

  lemma ParenText(ps: seq<Piece>)
    ensures Text(Paren(ps)) == "(" + Text(ps) + ")"
  {
    hide Text;
    TextAround([Lexeme(LParen)], ps, [Lexeme(RParen)]);
    TextOne(Lexeme(LParen));
    TextOne(Lexeme(RParen));
  }

  lemma ConjunctionText(parts: seq<seq<Piece>>)
    ensures Text(Conjunction(parts)) == SqlAll(TextsOf(parts))
  {
    hide Text, Between, Join, Paren;
    if parts == [] {
      TextOne(Lexeme(Num("1")));
    } else {
      ParenText(Join(parts, AndT));
      JoinText(parts, AndT, " AND ");
    }
  }

  lemma {:induction false} NegationsText(parts: seq<seq<Piece>>)
    ensures TextsOf(NegateAll(parts)) == SqlNots(TextsOf(parts))
  {
    if parts != [] {
      hide Text, Negated;
      NegationsText(parts[1..]);
      NegatedText(parts[0]);
      assert TextsOf(parts)[1..] == TextsOf(parts[1..]);
    }
  }

  lemma NegatedText(ps: seq<Piece>)
    ensures Text(Negated(ps)) == "NOT (" + Text(ps) + ")"
  {
    hide Text, Paren;
    TextConcat([Lexeme(NotT), Space], Paren(ps));
    TextTwo(Lexeme(NotT), Space);
    ParenText(ps);
  }

  lemma DisjunctionText(parts: seq<seq<Piece>>)
    ensures TextsOf(Disjunction(parts)) ==
      if parts == [] then [] else ["(" + Between(TextsOf(parts), " OR ") + ")"]
  {
    hide Text, Between, Join, Paren, TextsOf;
    if parts == [] {
      NoTexts();
    } else {
      ParenText(Join(parts, OrT));
      JoinText(parts, OrT, " OR ");
      OneTextOf(Paren(Join(parts, OrT)));
    }
  }

  lemma NoTexts()
    ensures TextsOf([]) == []
  {
  }

  lemma OneTextOf(part: seq<Piece>)
    ensures TextsOf([part]) == [Text(part)]
  {
    assert [part][1..] == [];
  }

  lemma TextsConcat(a: seq<seq<Piece>>, b: seq<seq<Piece>>)
    ensures TextsOf(a + b) == TextsOf(a) + TextsOf(b)
  {
  }

  // ---------------------------------------------------------------- literals and atoms

  lemma LitText(l: Lit)
    ensures Text(LitPieces(l)) == SqlLiteral(l)
  {
    hide Text;
    match l
    case Quoted(s) =>
      TextOne(Lexeme(Str(s)));
      QuoteIsSqlStr(s);
    case Number(negative, digits) =>
      if negative {
        TextTwo(Lexeme(Minus), Lexeme(Num(digits)));
        assert LitPieces(l) == [Lexeme(Minus), Lexeme(Num(digits))];
      } else {
        TextOne(Lexeme(Num(digits)));
        assert LitPieces(l) == [Lexeme(Num(digits))];
      }
  }

  lemma ScalarText(v: Scalar)
    ensures SqlLiteral(LitOf(v)) == SqlScalar(v)
  {
  }

  lemma {:induction false} LitsText(vs: seq<Scalar>)
    ensures Text(LitsPieces(LitsOf(vs))) == Between(SqlScalars(vs), ", ")
  {
    hide Text, LitOf, LitPieces, SqlScalar, SqlLiteral;
    if vs == [] {
      EmptyText();
    } else {
      LitsText(vs[1..]);
      LitText(LitOf(vs[0]));
      ScalarText(vs[0]);
      var ls := LitsOf(vs);
      assert ls[1..] == LitsOf(vs[1..]);
      if |vs| > 1 {
        assert |LitsOf(vs[1..])| > 0 && |SqlScalars(vs[1..])| > 0;
        TextAround(LitPieces(ls[0]), [Lexeme(Comma), Space], LitsPieces(ls[1..]));
        TextTwo(Lexeme(Comma), Space);
        assert SqlScalars(vs)[1..] == SqlScalars(vs[1..]);
      }
    }
  }

  lemma CmpText(col: string, op: CmpOp, rhs: Operand)
    ensures Text(AtomPieces(Cmp(col, op, rhs)))
         == col + (" " + TokenText(CmpToken(op)) + " ") + Text(OperandPieces(rhs))
  {
    hide Text, OperandPieces, CmpToken;
    var head := [Lexeme(Ident(col))];
    var mid := [Space, Lexeme(CmpToken(op)), Space];
    TextAround(head, mid, OperandPieces(rhs));
    TextOne(Lexeme(Ident(col)));
    SeparatorText(CmpToken(op));
    assert AtomPieces(Cmp(col, op, rhs)) == head + mid + OperandPieces(rhs);
  }

  lemma HasText(col: string, l: Lit)
    ensures Text(AtomPieces(Has(col, l))) == "has(" + col + ", " + SqlLiteral(l) + ")"
  {
    hide Text, LitPieces, SqlLiteral;
    var head := [Lexeme(HasT), Lexeme(LParen), Lexeme(Ident(col))];
    var mid := [Lexeme(Comma), Space];
    TextThree(Lexeme(HasT), Lexeme(LParen), Lexeme(Ident(col)));
    TextTwo(Lexeme(Comma), Space);
    LitText(l);
    TextOne(Lexeme(RParen));
    TextAround(head + mid, LitPieces(l), [Lexeme(RParen)]);
    TextConcat(head, mid);
    assert AtomPieces(Has(col, l)) == head + mid + LitPieces(l) + [Lexeme(RParen)];
  }

  lemma HasAnyText(col: string, vs: seq<Scalar>)
    ensures Text(AtomPieces(HasAny(col, LitsOf(vs)))) == "hasAny(" + col + ", [" + Between(SqlScalars(vs), ", ") + "])"
  {
    hide Text, LitsPieces, SqlScalars, LitsOf, Between;
    var head := [Lexeme(HasAnyT), Lexeme(LParen), Lexeme(Ident(col))];
    var mid := [Lexeme(Comma), Space, Lexeme(LBracket)];
    var close := [Lexeme(RBracket), Lexeme(RParen)];
    TextThree(Lexeme(HasAnyT), Lexeme(LParen), Lexeme(Ident(col)));
    TextThree(Lexeme(Comma), Space, Lexeme(LBracket));
    LitsText(vs);
    TextTwo(Lexeme(RBracket), Lexeme(RParen));
    TextAround(head + mid, LitsPieces(LitsOf(vs)), close);
    TextConcat(head, mid);
    assert AtomPieces(HasAny(col, LitsOf(vs))) == head + mid + LitsPieces(LitsOf(vs)) + close;
  }

  lemma InText(col: string, vs: seq<Scalar>)
    ensures Text(AtomPieces(In(col, LitsOf(vs)))) == col + " IN (" + Between(SqlScalars(vs), ", ") + ")"
  {
    hide Text, LitsPieces, SqlScalars, LitsOf, Between;
    var head := [Lexeme(Ident(col)), Space, Lexeme(InT)];
    var mid := [Space, Lexeme(LParen)];
    TextThree(Lexeme(Ident(col)), Space, Lexeme(InT));
    TextTwo(Space, Lexeme(LParen));
    LitsText(vs);
    TextOne(Lexeme(RParen));
    TextAround(head + mid, LitsPieces(LitsOf(vs)), [Lexeme(RParen)]);
    TextConcat(head, mid);
    assert AtomPieces(In(col, LitsOf(vs))) == head + mid + LitsPieces(LitsOf(vs)) + [Lexeme(RParen)];
  }

  lemma CallText(name: Token)
    ensures Text([Lexeme(name), Lexeme(LParen), Lexeme(RParen)]) == TokenText(name) + "()"
  {
    hide Text;
    TextThree(Lexeme(name), Lexeme(LParen), Lexeme(RParen));
  }

  lemma NowMinusText(n: string, unit: string)
    ensures Text(OperandPieces(NowMinus(n, unit))) == "now() - INTERVAL " + n + " " + unit
  {
    hide Text;
    var head := [Lexeme(NowT), Lexeme(LParen), Lexeme(RParen)];
    var minus := [Space, Lexeme(Minus), Space];
    var interval := [Lexeme(IntervalT), Space];
    var amount := [Lexeme(Num(n)), Space, Lexeme(Ident(unit))];
    CallText(NowT);
    SeparatorText(Minus);
    TextTwo(Lexeme(IntervalT), Space);
    TextThree(Lexeme(Num(n)), Space, Lexeme(Ident(unit)));
    TextAround(head + minus, interval, amount);
    TextConcat(head, minus);
    assert OperandPieces(NowMinus(n, unit)) == head + minus + interval + amount;
  }

  lemma BestEffortText(l: Lit)
    ensures Text(OperandPieces(BestEffort(l))) == "parseDateTime64BestEffort(" + SqlLiteral(l) + ")"
  {
    hide Text, LitPieces, SqlLiteral;
    TextAround([Lexeme(ParseTimeT), Lexeme(LParen)], LitPieces(l), [Lexeme(RParen)]);
    TextTwo(Lexeme(ParseTimeT), Lexeme(LParen));
    LitText(l);
    TextOne(Lexeme(RParen));
  }

  lemma TimeText(v: Scalar)
    ensures Text(OperandPieces(TimeOperand(v))) == SqlTime(v)
  {
    hide Text, OperandPieces, LitOf, SqlScalar, SqlLiteral;
    ScalarText(v);
    match TimeOperand(v)
    case NowMinus(n, unit) => NowMinusText(n, unit);
    case Now => NowText();
    case BestEffort(l) => BestEffortText(l);
    case Constant(l) => assert false;
  }

  lemma NowText()
    ensures Text(OperandPieces(Now)) == "now()"
  {
    CallText(NowT);
  }

  lemma ConstantText(l: Lit)
    ensures Text(OperandPieces(Constant(l))) == SqlLiteral(l)
  {
    LitText(l);
  }

  lemma {:induction false} RangeText(col: string, bounds: seq<Bound>)
    ensures TextsOf(AtomsPieces(RangeAtoms(col, bounds))) == SqlBounds(col, bounds)
  {
    hide Text, AtomPieces, OperandPieces, SqlTime, SqlScalar, SqlLiteral, LitOf, TimeOperand;
    if bounds != [] {
      var b := bounds[0];
      RangeText(col, bounds[1..]);
      TimeText(b.value);
      ConstantText(LitOf(b.value));
      ScalarText(b.value);
      if RangeOp(b.op).Some? {
        var a := Cmp(col, RangeOp(b.op).value, BoundOperand(col, b.value));
        OneTextOf(AtomPieces(a));
        SignText(RangeOp(b.op).value);
        CmpText(col, RangeOp(b.op).value, BoundOperand(col, b.value));
        var rest := RangeAtoms(col, bounds[1..]);
        assert RangeAtoms(col, bounds) == [a] + rest;
        assert AtomsPieces([a] + rest) == [AtomPieces(a)] + AtomsPieces(rest);
        TextsConcat([AtomPieces(a)], AtomsPieces(rest));
      } else {
        assert RangeAtoms(col, bounds) == RangeAtoms(col, bounds[1..]);
      }
    }
  }

  // ---------------------------------------------------------------- query strings

  lemma SignText(op: CmpOp)
    ensures " " + TokenText(CmpToken(op)) + " " == match op
                                                   case Eq => " = "
                                                   case Ge => " >= "
                                                   case Gt => " > "
                                                   case Le => " <= "
                                                   case Lt => " < "
                                                   case Ilike => " ILIKE "
  {
  }

  /** The comparisons that a term of a query string may come to. */
  predicate IsSearch(a: Atom) {
    (a.Cmp? && a.rhs.Constant?) || a.Has?
  }

  lemma SearchText(a: Atom)
    requires IsSearch(a)
    ensures Text(AtomPieces(a)) == SqlSearch(a)
  {
    hide Text, OperandPieces, SqlLiteral;
    match a
    case Cmp(col, op, rhs) =>
      CmpText(col, op, rhs);
      ConstantText(rhs.lit);
    case Has(col, l) => HasText(col, l);
  }

  lemma {:induction false} SubstringIsSearch(cols: seq<string>, text: string)
    ensures forall a :: a in Substring(cols, text) ==> IsSearch(a)
  {
    if cols != [] {
      SubstringIsSearch(cols[1..], text);
    }
  }

  lemma TermIsSearch(t: Table, term: string)
    ensures match TermOf(t, term)
            case Fielded(a) => IsSearch(a)
            case Free(choices) => forall a :: a in choices ==> IsSearch(a)
  {
    hide Strip, IndexOf, SplitCompare, Replace, FreeColumns, LastSegment, Substring, IsFieldName, IsNumeral, IsSearch;
    if TermOf(t, term).Free? {
      SubstringIsSearch(FreeColumns(t), Strip(LastSegment(Strip(term, IsBlank)), ch => ch == '"' || ch == '*'));
    } else {
      EachIsSearch();
    }
  }

  lemma EachIsSearch()
    ensures forall col, op, l {:trigger Cmp(col, op, Constant(l))} :: IsSearch(Cmp(col, op, Constant(l)))
    ensures forall col, l :: IsSearch(Has(col, l))
  {
  }

  lemma {:induction false} SearchesText(choices: seq<Atom>)
    requires forall a :: a in choices ==> IsSearch(a)
    ensures TextsOf(AtomsPieces(choices)) == SqlSearches(choices)
  {
    hide Text, AtomPieces, SqlSearch;
    if choices != [] {
      SearchesText(choices[1..]);
      SearchText(choices[0]);
    }
  }

  lemma TermText(t: Table, term: string)
    ensures Text(TermPieces(TermOf(t, term))) == SqlTerm(t, term)
  {
    hide TermOf, Text, AtomPieces, SqlSearch, Between, Join, Paren, AtomsPieces, SqlSearches, IsSearch;
    TermIsSearch(t, term);
    match TermOf(t, term)
    case Fielded(a) => SearchText(a);
    case Free(choices) =>
      SearchesText(choices);
      ParenText(Join(AtomsPieces(choices), OrT));
      JoinText(AtomsPieces(choices), OrT, " OR ");
  }

  lemma {:induction false} ChainText(t: Table, split: seq<string>)
    requires |split| % 2 == 1
    ensures Text(Chain(t, split)) == SqlChain(t, split)
  {
    hide TermOf, TermPieces, Text, SqlTerm;
    TermText(t, split[0]);
    if |split| > 1 {
      ChainText(t, split[2..]);
      SeparatorText(JoinerToken(split[1]));
      TextAround(TermPieces(TermOf(t, split[0])), [Space, Lexeme(JoinerToken(split[1])), Space], Chain(t, split[2..]));
    }
  }

  lemma LuceneText(t: Table, text: string)
    ensures Text(Lucene(t, text)) ==
      if Strip(text, IsBlank) == "" then "1" else "(" + SqlChain(t, Split(Strip(text, IsBlank))) + ")"
  {
    hide Text, Chain, SqlChain, Split, Strip, Paren;
    var s := Strip(text, IsBlank);
    if s == "" {
      TextOne(Lexeme(Num("1")));
    } else {
      ChainText(t, Split(s));
      ParenText(Chain(t, Split(s)));
    }
  }

  // ---------------------------------------------------------------- the whole text

  /** The text of a query tree, character by character. */
  lemma {:induction false} ClauseIsSql(t: Table, q: Query)
    ensures ClauseText(t, q) == Sql(t, q)
    decreases q
  {
    hide Text, AtomPieces, Conjunction, SqlAll, Lucene, SqlChain, Strip, Split, SqlNots, NegateAll, Disjunction;
    hide Between, LitOf, LitsOf, SqlScalar, SqlScalars, RangeAtoms, SqlBounds;
    match q
    case Bool(must, mustNot, should, _) =>
      ClausesAreSqls(t, must);
      ClausesAreSqls(t, mustNot);
      ClausesAreSqls(t, should);
      if Clause(t, q).Success? {
        BoolText(Clauses(t, must).value, Clauses(t, mustNot).value, Clauses(t, should).value);
      }
    case Range(field, bounds) =>
      if field in t.fields {
        RangeText(t.fields[field], bounds);
        ConjunctionText(AtomsPieces(RangeAtoms(t.fields[field], bounds)));
      }
    case Term(field, v) =>
      if field in t.fields {
        TermClauseText(t, t.fields[field], v);
      }
    case Terms(field, vs) =>
      if field in t.fields {
        HasAnyText(t.fields[field], vs);
        InText(t.fields[field], vs);
      }
    case Ids(vs) => IdsText(t, "alert_id", vs);
    case QueryString(text) => LuceneText(t, text);
    case MatchAll => OneText();
    case Other(_) =>
  }

  lemma IdsText(t: Table, col: string, vs: seq<Scalar>)
    requires col == "alert_id"
    ensures ClauseText(t, Ids(vs)) == Success("alert_id IN (" + Between(SqlScalars(vs), ", ") + ")")
  {
    hide Text, AtomPieces, LitsOf, SqlScalars;
    InText(col, vs);
    assert "alert_id" + " IN (" == "alert_id IN (";
  }

  lemma OneText()
    ensures Text(AtomPieces(One)) == "1"
  {
    TextOne(Lexeme(Num("1")));
  }

  lemma TermClauseText(t: Table, col: string, v: Scalar)
    ensures Text(AtomPieces(Has(col, LitOf(v)))) == "has(" + col + ", " + SqlScalar(v) + ")"
    ensures Text(AtomPieces(Cmp(col, Eq, Constant(LitOf(v))))) == col + " = " + SqlScalar(v)
  {
    hide Text, AtomPieces, OperandPieces, LitOf, SqlScalar, SqlLiteral;
    ScalarText(v);
    HasText(col, LitOf(v));
    CmpText(col, Eq, Constant(LitOf(v)));
    ConstantText(LitOf(v));
  }

  lemma BoolText(must: seq<seq<Piece>>, mustNot: seq<seq<Piece>>, should: seq<seq<Piece>>)
    ensures Text(Conjunction(must + NegateAll(mustNot) + Disjunction(should)))
         == SqlAll(TextsOf(must) + SqlNots(TextsOf(mustNot))
                   + if should == [] then [] else ["(" + Between(TextsOf(should), " OR ") + ")"])
  {
    hide Text, Conjunction, SqlAll, SqlNots, NegateAll, Disjunction, Between;
    var n := NegateAll(mustNot);
    NegationsText(mustNot);
    DisjunctionText(should);
    TextsConcat(must, n);
    TextsConcat(must + n, Disjunction(should));
    ConjunctionText(must + n + Disjunction(should));
  }

  lemma {:induction false} ClausesAreSqls(t: Table, qs: seq<Query>)
    ensures match Clauses(t, qs)
            case Success(parts) => Sqls(t, qs) == Success(TextsOf(parts))
            case Failure(e) => Sqls(t, qs) == Failure(e)
    decreases qs
  {
    if qs != [] {
      ClauseIsSql(t, qs[0]);
      ClausesAreSqls(t, qs[1..]);
      hide Text, Clause, Sql;
    }
  }
}
