/** The fragment of SQL boolean expressions that the query compiler writes, read back:
    a character-level lexer, and a parser in which NOT binds tighter than AND and AND
    tighter than OR.  This is the independent reading that `QueryCompiler` is proved
    against; literals are quoted as in `backend/app/connectors/registry.py`, lines 98-104,
    and `engine/util.go`, lines 10-13. */
module SqlText {
  import opened Wrappers

  // ---------------------------------------------------------------- string literals

  /** Replaces every occurrence of one character. */
  function Replace(s: string, c: char, sub: string): string {
    if s == "" then "" else (if s[0] == c then sub else [s[0]]) + Replace(s[1..], c, sub)
  }

  /** `_lit` on a string: backslashes first, then quotes. */
  function Quote(s: string): string {
    "'" + Replace(Replace(s, '\\', "\\\\"), '\'', "\\'") + "'"
  }

  /** `sqlStr`: both replacements in one pass over the original text. */
  function Escape(s: string): string {
    if s == "" then ""
    else (if s[0] == '\\' then "\\\\" else if s[0] == '\'' then "\\'" else [s[0]]) + Escape(s[1..])
  }

  function SqlStr(s: string): string {
    "'" + Escape(s) + "'"
  }

  datatype Scan = Scan(text: string, length: nat)

  /** Reads a literal from just after its opening quote: its value, and how far it goes. */
  function ScanString(s: string): (r: Option<Scan>)
    ensures r.Some? ==> 0 < r.value.length <= |s|
  {
    if s == "" then None
    else if s[0] == '\'' then Some(Scan("", 1))
    else if s[0] == '\\' then
      if |s| < 2 || (s[1] != '\\' && s[1] != '\'') then None
      else
        match ScanString(s[2..])
        case None => None
        case Some(more) => Some(Scan([s[1]] + more.text, more.length + 2))
    else
      match ScanString(s[1..])
      case None => None
      case Some(more) => Some(Scan([s[0]] + more.text, more.length + 1))
  }

  lemma {:induction false} ReplaceConcat(a: string, b: string, c: char, sub: string)
    ensures Replace(a + b, c, sub) == Replace(a, c, sub) + Replace(b, c, sub)
  {
    if a == "" {
      assert a + b == b;
    } else {
      var first := if a[0] == c then sub else [a[0]];
      assert (a + b)[0] == a[0] && (a + b)[1..] == a[1..] + b;
      calc {
        Replace(a + b, c, sub);
        first + Replace(a[1..] + b, c, sub);
        { ReplaceConcat(a[1..], b, c, sub); }
        first + (Replace(a[1..], c, sub) + Replace(b, c, sub));
        (first + Replace(a[1..], c, sub)) + Replace(b, c, sub);
      }
    }
  }

  lemma {:induction false} TwoPassesAreOne(s: string)
    ensures Replace(Replace(s, '\\', "\\\\"), '\'', "\\'") == Escape(s)
  {
    if s != "" {
      TwoPassesAreOne(s[1..]);
      var head := if s[0] == '\\' then "\\\\" else [s[0]];
      ReplaceConcat(head, Replace(s[1..], '\\', "\\\\"), '\'', "\\'");
      if s[0] == '\\' {
        ReplaceConcat("\\", "\\", '\'', "\\'");
        assert "\\" + "\\" == "\\\\";
      }
      assert Replace("\\", '\'', "\\'") == "\\" + "";
      assert Replace([s[0]], '\'', "\\'") == (if s[0] == '\'' then "\\'" else [s[0]]) + "";
    }
  }

  /** The two quoting functions of the code base agree on every string. */
  lemma {:induction false} QuoteIsSqlStr(s: string)
    ensures Quote(s) == SqlStr(s)
  {
    TwoPassesAreOne(s);
  }

  lemma {:induction false} ScanEscaped(s: string, rest: string)
    ensures ScanString(Escape(s) + "'" + rest) == Some(Scan(s, |Escape(s)| + 1))
  {
    var whole := Escape(s) + "'" + rest;
    if s == "" {
      assert whole[0] == '\'';
    } else {
      ScanEscaped(s[1..], rest);
      var tail := Escape(s[1..]) + "'" + rest;
      if s[0] == '\\' || s[0] == '\'' {
        assert whole == ['\\', s[0]] + tail;
        assert whole[2..] == tail;
      } else {
        assert whole == [s[0]] + tail;
        assert whole[1..] == tail;
      }
      assert [s[0]] + s[1..] == s;
    }
  }

  /** Whatever text follows a quoted literal, reading it stops at the literal's own last
      quote and gives the original string back. */
  lemma {:induction false} QuoteRoundTrip(s: string, rest: string)
    ensures Quote(s)[0] == '\'' && ScanString((Quote(s) + rest)[1..]) == Some(Scan(s, |Quote(s)| - 1))
  {
    TwoPassesAreOne(s);
    ScanEscaped(s, rest);
    assert (Quote(s) + rest)[1..] == Escape(s) + "'" + rest;
  }

  /** The order of the two replacements matters: quotes first would end the literal early. */
  lemma OtherOrderBreaks()
    ensures Replace(Replace("'", '\'', "\\'"), '\\', "\\\\") == "\\\\'"
    ensures ScanString("\\\\'" + "'") == Some(Scan("\\", 3))
  {
    assert Replace("'", '\'', "\\'") == "\\'" + "";
    assert "\\'"[1..] == "'" && "'"[1..] == "";
    assert Replace("\\'", '\\', "\\\\") == "\\\\" + ("'" + "");
    var text := "\\\\'" + "'";
    assert text[2..] == "''" && text[1] == '\\';
    assert ScanString("''") == Some(Scan("", 1));
    assert ['\\'] + "" == "\\";
  }

  // ---------------------------------------------------------------- tokens

  datatype Token =
    | LParen | RParen | LBracket | RBracket | Comma | Minus
    | EqT | GeT | GtT | LeT | LtT
    | AndT | OrT | NotT | InT | IlikeT | IntervalT | HasT | HasAnyT | NowT | ParseTimeT
    | Num(digits: string)
    | Ident(name: string)
    | Str(text: string)
    | Bad

  predicate IsDigit(c: char) {
    '0' <= c <= '9'
  }

  predicate IsWordChar(c: char) {
    'a' <= c <= 'z' || 'A' <= c <= 'Z' || IsDigit(c) || c == '_' || c == '.'
  }

  function WordToken(w: string): Token {
    if w == "AND" then AndT
    else if w == "OR" then OrT
    else if w == "NOT" then NotT
    else if w == "IN" then InT
    else if w == "ILIKE" then IlikeT
    else if w == "INTERVAL" then IntervalT
    else if w == "has" then HasT
    else if w == "hasAny" then HasAnyT
    else if w == "now" then NowT
    else if w == "parseDateTime64BestEffort" then ParseTimeT
    else if w != "" && IsDigit(w[0]) then Num(w)
    else Ident(w)
  }

  predicate IsWordToken(t: Token) {
    t.AndT? || t.OrT? || t.NotT? || t.InT? || t.IlikeT? || t.IntervalT? || t.HasT? || t.HasAnyT? || t.NowT?
    || t.ParseTimeT? || t.Num? || t.Ident?
  }

  function TokenText(t: Token): string {
    match t
    case LParen => "("
    case RParen => ")"
    case LBracket => "["
    case RBracket => "]"
    case Comma => ","
    case Minus => "-"
    case EqT => "="
    case GeT => ">="
    case GtT => ">"
    case LeT => "<="
    case LtT => "<"
    case AndT => "AND"
    case OrT => "OR"
    case NotT => "NOT"
    case InT => "IN"
    case IlikeT => "ILIKE"
    case IntervalT => "INTERVAL"
    case HasT => "has"
    case HasAnyT => "hasAny"
    case NowT => "now"
    case ParseTimeT => "parseDateTime64BestEffort"
    case Num(w) => w
    case Ident(w) => w
    case Str(s) => Quote(s)
    case Bad => "?"
  }

  predicate IsWord(w: string) {
    w != "" && forall i :: 0 <= i < |w| ==> IsWordChar(w[i])
  }

  /** Tokens whose own text reads back as them. */
  predicate Writable(t: Token) {
    match t
    case Num(w) => IsWord(w) && IsDigit(w[0])
    case Ident(w) => IsWord(w) && WordToken(w) == Ident(w)
    case Bad => false
    case _ => true
  }

  function WordLength(s: string): (n: nat)
    ensures n <= |s|
    ensures s != "" && IsWordChar(s[0]) ==> n > 0
  {
    if s == "" || !IsWordChar(s[0]) then 0 else 1 + WordLength(s[1..])
  }

  function Lex(s: string): seq<Token> {
    if s == "" then []
    else if s[0] == ' ' then Lex(s[1..])
    else if s[0] == '\'' then
      match ScanString(s[1..])
      case None => [Bad]
      case Some(lit) => [Str(lit.text)] + Lex(s[1 + lit.length..])
    else if IsWordChar(s[0]) then [WordToken(s[..WordLength(s)])] + Lex(s[WordLength(s)..])
    else if s[0] == '>' && |s| > 1 && s[1] == '=' then [GeT] + Lex(s[2..])
    else if s[0] == '<' && |s| > 1 && s[1] == '=' then [LeT] + Lex(s[2..])
    else [Mark(s[0])] + Lex(s[1..])
  }

  function Mark(c: char): Token {
    match c
    case '(' => LParen
    case ')' => RParen
    case '[' => LBracket
    case ']' => RBracket
    case ',' => Comma
    case '-' => Minus
    case '=' => EqT
    case '>' => GtT
    case '<' => LtT
    case _ => Bad
  }

  // ---------------------------------------------------------------- text built from tokens and spaces

  datatype Piece = Space | Lexeme(t: Token)

  function PieceText(p: Piece): string {
    match p
    case Space => " "
    case Lexeme(t) => TokenText(t)
  }

  function Text(ps: seq<Piece>): string {
    if ps == [] then "" else PieceText(ps[0]) + Text(ps[1..])
  }

  function Tokens(ps: seq<Piece>): seq<Token> {
    if ps == [] then []
    else (if ps[0].Space? then [] else [ps[0].t]) + Tokens(ps[1..])
  }

  /** Two neighbours that would run together if no space stood between them. */
  predicate Clash(p: Piece, q: Piece) {
    && p.Lexeme? && q.Lexeme?
    && (if IsWordToken(p.t) then IsWordToken(q.t) else (p.t.GtT? || p.t.LtT?) && q.t.EqT?)
  }

  predicate WellSpaced(ps: seq<Piece>) {
    && (forall i :: 0 <= i < |ps| ==> ps[i].Space? || Writable(ps[i].t))
    && (forall i :: 0 <= i < |ps| - 1 ==> !Clash(ps[i], ps[i + 1]))
  }

  lemma {:induction false} WordLengthOf(w: string, rest: string)
    requires forall i :: 0 <= i < |w| ==> IsWordChar(w[i])
    requires rest == "" || !IsWordChar(rest[0])
    ensures WordLength(w + rest) == |w|
  {
    if w == "" {
      assert w + rest == rest;
    } else {
      assert (w + rest)[1..] == w[1..] + rest;
      WordLengthOf(w[1..], rest);
    }
  }

  lemma LexWordToken(t: Token, rest: string)
    requires IsWordToken(t) && Writable(t) && (rest == "" || !IsWordChar(rest[0]))
    ensures Lex(TokenText(t) + rest) == [t] + Lex(rest)
  {
    var w := TokenText(t);
    WordTokenText(t);
    WordLengthOf(w, rest);
    assert (w + rest)[0] == w[0] && (w + rest)[..|w|] == w && (w + rest)[|w|..] == rest;
  }

  lemma WordTokenText(t: Token)
    requires IsWordToken(t) && Writable(t)
    ensures IsWord(TokenText(t)) && WordToken(TokenText(t)) == t && TokenText(t)[0] != ' ' && TokenText(t)[0] != '\''
  {
  }

  lemma LexString(s: string, rest: string)
    ensures Lex(Quote(s) + rest) == [Str(s)] + Lex(rest)
  {
    QuoteRoundTrip(s, rest);
    assert (Quote(s) + rest)[0] == '\'';
    assert (Quote(s) + rest)[|Quote(s)|..] == rest;
  }

  lemma LexMark(t: Token, rest: string)
    requires !IsWordToken(t) && !t.Str? && !t.Bad?
    requires (t.GtT? || t.LtT?) ==> rest == "" || rest[0] != '='
    ensures Lex(TokenText(t) + rest) == [t] + Lex(rest)
  {
    if t.GeT? || t.LeT? {
      LexTwoMarks(t, rest);
    } else {
      LexOneMark(t, TokenText(t)[0], rest);
      assert TokenText(t) == [TokenText(t)[0]];
    }
  }

  lemma LexOneMark(t: Token, c: char, rest: string)
    requires c != ' ' && c != '\'' && !IsWordChar(c) && Mark(c) == t
    requires (c == '>' || c == '<') ==> rest == "" || rest[0] != '='
    ensures Lex([c] + rest) == [t] + Lex(rest)
  {
    var s := [c] + rest;
    assert s[1..] == rest;
    assert |s| > 1 ==> s[1] == rest[0];
  }

  lemma LexTwoMarks(t: Token, rest: string)
    requires t.GeT? || t.LeT?
    ensures Lex(TokenText(t) + rest) == [t] + Lex(rest)
  {
    var s := TokenText(t) + rest;
    assert s[2..] == rest;
  }

  lemma PieceStart(p: Piece)
    requires p.Space? || Writable(p.t)
    ensures PieceText(p) != ""
    ensures IsWordChar(PieceText(p)[0]) <==> p.Lexeme? && IsWordToken(p.t)
    ensures PieceText(p)[0] == '=' <==> p.Lexeme? && p.t.EqT?
  {
    if p.Lexeme? && IsWordToken(p.t) {
      WordTokenText(p.t);
    }
  }

  /** A piece and what follows it do not run together. */
  predicate Apart(p: Piece, rest: string) {
    p.Lexeme? && rest != "" ==>
      if IsWordToken(p.t) then !IsWordChar(rest[0]) else p.t.GtT? || p.t.LtT? ==> rest[0] != '='
  }

  lemma LexPiece(p: Piece, rest: string)
    requires (p.Space? || Writable(p.t)) && Apart(p, rest)
    ensures Lex(PieceText(p) + rest) == (if p.Space? then [] else [p.t]) + Lex(rest)
  {
    if p.Space? {
      assert (" " + rest)[1..] == rest;
    } else if p.t.Str? {
      LexString(p.t.text, rest);
    } else if IsWordToken(p.t) {
      LexWordToken(p.t, rest);
    } else {
      LexMark(p.t, rest);
    }
  }

  lemma ApartFromNext(p: Piece, q: Piece, rest: string)
    requires (p.Space? || Writable(p.t)) && (q.Space? || Writable(q.t)) && !Clash(p, q)
    ensures Apart(p, PieceText(q) + rest)
  {
    PieceStart(q);
    assert (PieceText(q) + rest)[0] == PieceText(q)[0];
  }

  /** Lexing the text of well-spaced pieces gives their tokens back. */
  lemma {:induction false} LexText(ps: seq<Piece>)
    requires WellSpaced(ps)
    ensures Lex(Text(ps)) == Tokens(ps)
  {
    hide Lex, PieceText, Writable, Apart, Clash;
    if ps != [] {
      LexText(ps[1..]);
      if |ps| > 1 {
        assert !Clash(ps[0], ps[1]);
        ApartFromNext(ps[0], ps[1], Text(ps[1..][1..]));
      } else {
        ApartFromEnd(ps[0]);
      }
      LexPiece(ps[0], Text(ps[1..]));
    } else {
      LexEmpty();
    }
  }

  lemma ApartFromEnd(p: Piece)
    ensures Apart(p, "")
  {
  }

  lemma LexEmpty()
    ensures Lex("") == []
  {
  }

  lemma {:induction false} TokensConcat(a: seq<Piece>, b: seq<Piece>)
    ensures Tokens(a + b) == Tokens(a) + Tokens(b)
  {
    if a == [] {
      assert a + b == b;
    } else {
      assert (a + b)[1..] == a[1..] + b;
      TokensConcat(a[1..], b);
    }
  }

  // ---------------------------------------------------------------- expressions and their parser

  datatype Lit = Number(negative: bool, digits: string) | Quoted(text: string)

  datatype Operand = Constant(lit: Lit) | Now | NowMinus(count: string, unit: string) | BestEffort(lit: Lit)

  datatype CmpOp = Eq | Ge | Gt | Le | Lt | Ilike

  datatype Atom =
    | One
    | Cmp(col: string, op: CmpOp, rhs: Operand)
    | Has(col: string, lit: Lit)
    | HasAny(col: string, lits: seq<Lit>)
    | In(col: string, lits: seq<Lit>)

  datatype Expr = Leaf(a: Atom) | Not(e: Expr) | And(l: Expr, r: Expr) | Or(l: Expr, r: Expr)

  datatype Parsed<T> = Parsed(value: T, rest: seq<Token>)

  predicate Starts(ts: seq<Token>, t: Token) {
    ts != [] && ts[0] == t
  }

  function ParseLit(ts: seq<Token>): (r: Option<Parsed<Lit>>)
    ensures r.Some? ==> |r.value.rest| < |ts|
  {
    if ts == [] then None
    else if ts[0].Num? then Some(Parsed(Number(false, ts[0].digits), ts[1..]))
    else if ts[0].Minus? && |ts| > 1 && ts[1].Num? then Some(Parsed(Number(true, ts[1].digits), ts[2..]))
    else if ts[0].Str? then Some(Parsed(Quoted(ts[0].text), ts[1..]))
    else None
  }

  /** One literal or more, separated by commas. */
  function ParseLits(ts: seq<Token>): (r: Option<Parsed<seq<Lit>>>)
    ensures r.Some? ==> |r.value.rest| < |ts|
    decreases |ts|
  {
    match ParseLit(ts)
    case None => None
    case Some(first) =>
      if !Starts(first.rest, Comma) then Some(Parsed([first.value], first.rest))
      else
        match ParseLits(first.rest[1..])
        case None => None
        case Some(more) => Some(Parsed([first.value] + more.value, more.rest))
  }

  function ParseOperand(ts: seq<Token>): (r: Option<Parsed<Operand>>)
    ensures r.Some? ==> |r.value.rest| < |ts|
  {
    if Starts(ts, NowT) then
      if |ts| < 3 || ts[1] != LParen || ts[2] != RParen then None
      else if |ts| > 3 && ts[3] == Minus then
        if |ts| >= 7 && ts[4] == IntervalT && ts[5].Num? && ts[6].Ident?
        then Some(Parsed(NowMinus(ts[5].digits, ts[6].name), ts[7..])) else None
      else Some(Parsed(Now, ts[3..]))
    else if Starts(ts, ParseTimeT) then
      if |ts| < 2 || ts[1] != LParen then None
      else
        match ParseLit(ts[2..])
        case None => None
        case Some(l) => if Starts(l.rest, RParen) then Some(Parsed(BestEffort(l.value), l.rest[1..])) else None
    else
      match ParseLit(ts)
      case None => None
      case Some(l) => Some(Parsed(Constant(l.value), l.rest))
  }

  function CmpOf(t: Token): Option<CmpOp> {
    match t
    case EqT => Some(Eq)
    case GeT => Some(Ge)
    case GtT => Some(Gt)
    case LeT => Some(Le)
    case LtT => Some(Lt)
    case IlikeT => Some(Ilike)
    case _ => None
  }

  function ParseHas(ts: seq<Token>): (r: Option<Parsed<Atom>>)
    ensures r.Some? ==> |r.value.rest| < |ts|
  {
    if |ts| < 3 || ts[0] != LParen || !ts[1].Ident? || ts[2] != Comma then None
    else
      match ParseLit(ts[3..])
      case None => None
      case Some(l) => if Starts(l.rest, RParen) then Some(Parsed(Has(ts[1].name, l.value), l.rest[1..])) else None
  }

  function ParseHasAny(ts: seq<Token>): (r: Option<Parsed<Atom>>)
    ensures r.Some? ==> |r.value.rest| < |ts|
  {
    if |ts| < 4 || ts[0] != LParen || !ts[1].Ident? || ts[2] != Comma || ts[3] != LBracket then None
    else if |ts| >= 6 && ts[4] == RBracket && ts[5] == RParen then Some(Parsed(HasAny(ts[1].name, []), ts[6..]))
    else
      match ParseLits(ts[4..])
      case None => None
      case Some(l) =>
        if |l.rest| >= 2 && l.rest[0] == RBracket && l.rest[1] == RParen
        then Some(Parsed(HasAny(ts[1].name, l.value), l.rest[2..])) else None
  }

  /** What may follow a column: a comparison, or IN with a list that is not empty. */
  function ParseColumn(col: string, ts: seq<Token>): (r: Option<Parsed<Atom>>)
    ensures r.Some? ==> |r.value.rest| < |ts|
  {
    if ts == [] then None
    else if ts[0] == InT then
      if |ts| < 2 || ts[1] != LParen then None
      else
        match ParseLits(ts[2..])
        case None => None
        case Some(l) => if Starts(l.rest, RParen) then Some(Parsed(In(col, l.value), l.rest[1..])) else None
    else if CmpOf(ts[0]).None? then None
    else
      match ParseOperand(ts[1..])
      case None => None
      case Some(o) => Some(Parsed(Cmp(col, CmpOf(ts[0]).value, o.value), o.rest))
  }

  function ParseAtom(ts: seq<Token>): (r: Option<Parsed<Atom>>)
    ensures r.Some? ==> |r.value.rest| < |ts|
  {
    if ts == [] then None
    else if ts[0] == Num("1") then Some(Parsed(One, ts[1..]))
    else if ts[0].HasT? then ParseHas(ts[1..])
    else if ts[0].HasAnyT? then ParseHasAny(ts[1..])
    else if ts[0].Ident? then ParseColumn(ts[0].name, ts[1..])
    else None
  }

  function ParseOr(ts: seq<Token>): (r: Option<Parsed<Expr>>)
    ensures r.Some? ==> |r.value.rest| < |ts|
    decreases |ts|, 3
  {
    match ParseAnd(ts)
    case None => None
    case Some(l) =>
      if !Starts(l.rest, OrT) then Some(l)
      else
        match ParseOr(l.rest[1..])
        case None => None
        case Some(r) => Some(Parsed(Or(l.value, r.value), r.rest))
  }

  function ParseAnd(ts: seq<Token>): (r: Option<Parsed<Expr>>)
    ensures r.Some? ==> |r.value.rest| < |ts|
    decreases |ts|, 2
  {
    match ParseNot(ts)
    case None => None
    case Some(l) =>
      if !Starts(l.rest, AndT) then Some(l)
      else
        match ParseAnd(l.rest[1..])
        case None => None
        case Some(r) => Some(Parsed(And(l.value, r.value), r.rest))
  }

  function ParseNot(ts: seq<Token>): (r: Option<Parsed<Expr>>)
    ensures r.Some? ==> |r.value.rest| < |ts|
    decreases |ts|, 1
  {
    if Starts(ts, NotT) then
      match ParseNot(ts[1..])
      case None => None
      case Some(e) => Some(Parsed(Not(e.value), e.rest))
    else if Starts(ts, LParen) then
      match ParseOr(ts[1..])
      case None => None
      case Some(e) => if Starts(e.rest, RParen) then Some(Parsed(e.value, e.rest[1..])) else None
    else
      match ParseAtom(ts)
      case None => None
      case Some(a) => Some(Parsed(Leaf(a.value), a.rest))
  }

  /** The expression a whole text denotes, if it is one. */
  function ParseSql(s: string): Option<Expr> {
    match ParseOr(Lex(s))
    case None => None
    case Some(p) => if p.rest == [] then Some(p.value) else None
  }

  // ---------------------------------------------------------------- meaning on a row

  /** A row, as the comparisons and array memberships that hold of it. */
  datatype Row = Row(cmp: (string, CmpOp, Operand) -> bool, has: (string, Lit) -> bool)

  ghost predicate AtomHolds(a: Atom, row: Row) {
    match a
    case One => true
    case Cmp(col, op, rhs) => row.cmp(col, op, rhs)
    case Has(col, lit) => row.has(col, lit)
    case HasAny(col, lits) => exists l :: l in lits && row.has(col, l)
    case In(col, lits) => exists l :: l in lits && row.cmp(col, Eq, Constant(l))
  }

  ghost predicate Holds(e: Expr, row: Row) {
    match e
    case Leaf(a) => AtomHolds(a, row)
    case Not(c) => !Holds(c, row)
    case And(l, r) => Holds(l, row) && Holds(r, row)
    case Or(l, r) => Holds(l, row) || Holds(r, row)
  }
}
