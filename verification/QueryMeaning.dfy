/** Correctness of the query compiler: the text it writes, lexed and parsed with the usual
    precedences, denotes what the query tree means. */
module QueryMeaning {
  import opened Wrappers
  import opened Texts
  import opened SqlText
  import opened QueryCompiler

  // ---------------------------------------------------------------- how a run of tokens reads

  /** What may follow a clause inside a larger expression. */
  predicate Follow(rest: seq<Token>) {
    rest == [] || rest[0].AndT? || rest[0].OrT? || rest[0].RParen?
  }

  function Found(e: Option<Expr>, rest: seq<Token>): Option<Parsed<Expr>> {
    match e
    case None => None
    case Some(x) => Some(Parsed(x, rest))
  }

  /** In any context, these tokens read as one operand with the tree e, or not at all. */
  ghost predicate Reads(ts: seq<Token>, e: Option<Expr>) {
    forall rest {:trigger ParseNot(ts + rest)} :: Follow(rest) ==> ParseNot(ts + rest) == Found(e, rest)
  }

  /** The same for a conjunction, which must not be followed by another AND. */
  ghost predicate ReadsAnd(ts: seq<Token>, e: Option<Expr>) {
    forall rest {:trigger ParseAnd(ts + rest)} ::
      Follow(rest) && !Starts(rest, AndT) ==> ParseAnd(ts + rest) == Found(e, rest)
  }

  /** The same for a whole expression, at the end or before a closing parenthesis. */
  ghost predicate ReadsOr(ts: seq<Token>, e: Option<Expr>) {
    forall rest {:trigger ParseOr(ts + rest)} ::
      rest == [] || rest[0] == RParen ==> ParseOr(ts + rest) == Found(e, rest)
  }

  function AndAll(es: seq<Option<Expr>>): Option<Expr> {
    if es == [] then None
    else if |es| == 1 then es[0]
    else
      var tail := AndAll(es[1..]);
      if es[0].None? || tail.None? then None else Some(And(es[0].value, tail.value))
  }

  function OrAll(es: seq<Option<Expr>>): Option<Expr> {
    if es == [] then None
    else if |es| == 1 then es[0]
    else
      var tail := OrAll(es[1..]);
      if es[0].None? || tail.None? then None else Some(Or(es[0].value, tail.value))
  }

  function NotOf(e: Option<Expr>): Option<Expr> {
    match e
    case None => None
    case Some(x) => Some(Not(x))
  }

  lemma ReadsIsReadsAnd(ts: seq<Token>, e: Option<Expr>)
    requires Reads(ts, e)
    ensures ReadsAnd(ts, e)
  {
    forall rest | Follow(rest) && !Starts(rest, AndT)
      ensures ParseAnd(ts + rest) == Found(e, rest)
    {
      assert ParseNot(ts + rest) == Found(e, rest);
    }
  }

  lemma ReadsAndIsReadsOr(ts: seq<Token>, e: Option<Expr>)
    requires ReadsAnd(ts, e)
    ensures ReadsOr(ts, e)
  {
    forall rest | rest == [] || rest[0] == RParen
      ensures ParseOr(ts + rest) == Found(e, rest)
    {
      assert ParseAnd(ts + rest) == Found(e, rest);
    }
  }

  lemma AndStep(ts: seq<Token>, l: Option<Expr>, tail: seq<Token>, r: Option<Expr>, rest: seq<Token>)
    requires ParseNot(ts) == Found(l, [AndT] + tail) && ParseAnd(tail) == Found(r, rest)
    ensures ParseAnd(ts) == Found(if l.None? || r.None? then None else Some(And(l.value, r.value)), rest)
  {
    hide ParseNot, ParseOr;
    assert ([AndT] + tail)[1..] == tail;
  }

  lemma OrStep(ts: seq<Token>, l: Option<Expr>, tail: seq<Token>, r: Option<Expr>, rest: seq<Token>)
    requires ParseAnd(ts) == Found(l, [OrT] + tail) && ParseOr(tail) == Found(r, rest)
    ensures ParseOr(ts) == Found(if l.None? || r.None? then None else Some(Or(l.value, r.value)), rest)
  {
    hide ParseNot, ParseAnd;
    assert ([OrT] + tail)[1..] == tail;
  }

  lemma NotStep(ts: seq<Token>, e: Option<Expr>, rest: seq<Token>)
    requires ParseNot(ts) == Found(e, rest)
    ensures ParseNot([NotT] + ts) == Found(NotOf(e), rest)
  {
    hide ParseAnd, ParseOr;
    assert ([NotT] + ts)[1..] == ts;
  }

  lemma ParenStep(ts: seq<Token>, e: Option<Expr>, rest: seq<Token>)
    requires ParseOr(ts) == Found(e, [RParen] + rest)
    ensures ParseNot([LParen] + ts) == Found(e, rest)
  {
    hide ParseAnd, ParseOr;
    assert ([LParen] + ts)[1..] == ts && ([RParen] + rest)[1..] == rest;
  }

  lemma ConjunctionReads(a: seq<Token>, ea: Option<Expr>, b: seq<Token>, eb: Option<Expr>)
    requires Reads(a, ea) && ReadsAnd(b, eb)
    ensures ReadsAnd(a + [AndT] + b,
                     if ea.None? || eb.None? then None else Some(And(ea.value, eb.value)))
  {
    forall rest | Follow(rest) && !Starts(rest, AndT)
      ensures ParseAnd(a + [AndT] + b + rest)
           == Found(if ea.None? || eb.None? then None else Some(And(ea.value, eb.value)), rest)
    {
      hide ParseNot, ParseAnd;
      var more := [AndT] + (b + rest);
      assert a + [AndT] + b + rest == a + more;
      assert ParseNot(a + more) == Found(ea, more);
      assert ParseAnd(b + rest) == Found(eb, rest);
      AndStep(a + more, ea, b + rest, eb, rest);
    }
  }

  lemma DisjunctionReads(a: seq<Token>, ea: Option<Expr>, b: seq<Token>, eb: Option<Expr>)
    requires ReadsAnd(a, ea) && ReadsOr(b, eb)
    ensures ReadsOr(a + [OrT] + b,
                    if ea.None? || eb.None? then None else Some(Or(ea.value, eb.value)))
  {
    forall rest | rest == [] || rest[0] == RParen
      ensures ParseOr(a + [OrT] + b + rest)
           == Found(if ea.None? || eb.None? then None else Some(Or(ea.value, eb.value)), rest)
    {
      hide ParseAnd, ParseOr;
      var more := [OrT] + (b + rest);
      assert a + [OrT] + b + rest == a + more;
      assert ParseAnd(a + more) == Found(ea, more);
      assert ParseOr(b + rest) == Found(eb, rest);
      OrStep(a + more, ea, b + rest, eb, rest);
    }
  }

  lemma ParenthesesRead(ts: seq<Token>, e: Option<Expr>)
    requires ReadsOr(ts, e)
    ensures Reads([LParen] + ts + [RParen], e)
  {
    forall rest | Follow(rest)
      ensures ParseNot([LParen] + ts + [RParen] + rest) == Found(e, rest)
    {
      hide ParseNot, ParseOr;
      var close := [RParen] + rest;
      assert [LParen] + ts + [RParen] + rest == [LParen] + (ts + close);
      assert ParseOr(ts + close) == Found(e, close);
      ParenStep(ts + close, e, rest);
    }
  }

  lemma NegationReads(ts: seq<Token>, e: Option<Expr>)
    requires Reads(ts, e)
    ensures Reads([NotT] + ts, NotOf(e))
  {
    forall rest | Follow(rest)
      ensures ParseNot([NotT] + ts + rest) == Found(NotOf(e), rest)
    {
      hide ParseNot;
      assert [NotT] + ts + rest == [NotT] + (ts + rest);
      assert ParseNot(ts + rest) == Found(e, rest);
      NotStep(ts + rest, e, rest);
    }
  }

  // ---------------------------------------------------------------- joined parts

  function Tok(p: Piece): seq<Token> {
    if p.Space? then [] else [p.t]
  }

  lemma TokensOne(p: Piece)
    ensures Tokens([p]) == Tok(p)
  {
  }

  lemma TokensTwo(p: Piece, q: Piece)
    ensures Tokens([p, q]) == Tok(p) + Tok(q)
  {
    assert [p, q] == [p] + [q];
    TokensConcat([p], [q]);
    TokensOne(p);
    TokensOne(q);
  }

  lemma TokensThree(p: Piece, q: Piece, r: Piece)
    ensures Tokens([p, q, r]) == Tok(p) + Tok(q) + Tok(r)
  {
    assert [p, q, r] == [p, q] + [r];
    TokensConcat([p, q], [r]);
    TokensTwo(p, q);
    TokensOne(r);
  }

  lemma TokensFour(p: Piece, q: Piece, r: Piece, s: Piece)
    ensures Tokens([p, q, r, s]) == Tok(p) + Tok(q) + Tok(r) + Tok(s)
  {
    assert [p, q, r, s] == [p, q] + [r, s];
    TokensConcat([p, q], [r, s]);
    TokensTwo(p, q);
    TokensTwo(r, s);
  }

  lemma TokensAround(a: seq<Piece>, b: seq<Piece>, c: seq<Piece>)
    ensures Tokens(a + b + c) == Tokens(a) + Tokens(b) + Tokens(c)
  {
    TokensConcat(a + b, c);
    TokensConcat(a, b);
  }

  lemma JoinTokens(parts: seq<seq<Piece>>, joiner: Token)
    requires |parts| > 1
    ensures Tokens(Join(parts, joiner)) == Tokens(parts[0]) + [joiner] + Tokens(Join(parts[1..], joiner))
  {
    hide Tokens;
    TokensAround(parts[0], [Space, Lexeme(joiner), Space], Join(parts[1..], joiner));
    TokensThree(Space, Lexeme(joiner), Space);
  }

  lemma ParenTokens(ps: seq<Piece>)
    ensures Tokens(Paren(ps)) == [LParen] + Tokens(ps) + [RParen]
  {
    hide Tokens;
    TokensAround([Lexeme(LParen)], ps, [Lexeme(RParen)]);
    TokensOne(Lexeme(LParen));
    TokensOne(Lexeme(RParen));
  }

  lemma NegatedTokens(ps: seq<Piece>)
    ensures Tokens(Negated(ps)) == [NotT] + Tokens(Paren(ps))
  {
    hide Tokens;
    TokensConcat([Lexeme(NotT), Space], Paren(ps));
    TokensTwo(Lexeme(NotT), Space);
  }

  ghost predicate AllRead(parts: seq<seq<Piece>>, es: seq<Option<Expr>>) {
    |parts| == |es| && forall i :: 0 <= i < |parts| ==> Reads(Tokens(parts[i]), es[i])
  }

  ghost predicate AllReadAnd(parts: seq<seq<Piece>>, es: seq<Option<Expr>>) {
    |parts| == |es| && forall i :: 0 <= i < |parts| ==> ReadsAnd(Tokens(parts[i]), es[i])
  }

  lemma {:induction false} JoinReadsAnd(parts: seq<seq<Piece>>, es: seq<Option<Expr>>)
    requires parts != [] && AllRead(parts, es)
    ensures ReadsAnd(Tokens(Join(parts, AndT)), AndAll(es))
  {
    hide Reads, ReadsAnd;
    if |parts| == 1 {
      ReadsIsReadsAnd(Tokens(parts[0]), es[0]);
    } else {
      JoinReadsAnd(parts[1..], es[1..]);
      JoinTokens(parts, AndT);
      ConjunctionReads(Tokens(parts[0]), es[0], Tokens(Join(parts[1..], AndT)), AndAll(es[1..]));
    }
  }

  lemma {:induction false} JoinReadsOr(parts: seq<seq<Piece>>, es: seq<Option<Expr>>)
    requires AllReadAnd(parts, es)
    ensures ReadsOr(Tokens(Join(parts, OrT)), OrAll(es))
  {
    if parts == [] {
      NothingReads();
    } else if |parts| == 1 {
      ReadsAndIsReadsOr(Tokens(parts[0]), es[0]);
    } else {
      hide ReadsAnd, ReadsOr;
      JoinReadsOr(parts[1..], es[1..]);
      JoinTokens(parts, OrT);
      DisjunctionReads(Tokens(parts[0]), es[0], Tokens(Join(parts[1..], OrT)), OrAll(es[1..]));
    }
  }

  lemma NothingReads()
    ensures ReadsOr([], None)
  {
    forall rest: seq<Token> | rest == [] || rest[0] == RParen
      ensures ParseOr([] + rest) == Found(None, rest)
    {
      assert [] + rest == rest;
      assert ParseNot(rest) == None;
    }
  }

  // ---------------------------------------------------------------- literals and atoms

  lemma LitReads(l: Lit, rest: seq<Token>)
    ensures ParseLit(Tokens(LitPieces(l)) + rest) == Some(Parsed(l, rest))
  {
    var ts := LitTokens(l);
    LitPiecesTokens(l);
    assert (ts + rest)[|ts|..] == rest;
    assert forall i :: 0 <= i < |ts| ==> (ts + rest)[i] == ts[i];
  }

  function LitTokens(l: Lit): (ts: seq<Token>)
    ensures ts != []
  {
    match l
    case Number(neg, digits) => if neg then [Minus, Num(digits)] else [Num(digits)]
    case Quoted(s) => [Str(s)]
  }

  lemma LitPiecesTokens(l: Lit)
    ensures Tokens(LitPieces(l)) == LitTokens(l)
  {
    hide Tokens;
    match l
    case Quoted(s) => TokensOne(Lexeme(Str(s)));
    case Number(neg, digits) =>
      TokensOne(Lexeme(Num(digits)));
      TokensTwo(Lexeme(Minus), Lexeme(Num(digits)));
      assert LitPieces(l) == if neg then [Lexeme(Minus), Lexeme(Num(digits))] else [Lexeme(Num(digits))];
  }

  lemma {:induction false} LitsRead(ls: seq<Lit>, rest: seq<Token>)
    requires ls != [] && !Starts(rest, Comma)
    ensures ParseLits(Tokens(LitsPieces(ls)) + rest) == Some(Parsed(ls, rest))
  {
    hide Tokens, LitPieces, ParseLit;
    if |ls| == 1 {
      LitReads(ls[0], rest);
      assert ls == [ls[0]];
    } else {
      LitsRead(ls[1..], rest);
      var tail := Tokens(LitsPieces(ls[1..])) + rest;
      var more := [Comma] + tail;
      LitReads(ls[0], more);
      LitsTokens(ls);
      assert Tokens(LitsPieces(ls)) + rest == Tokens(LitPieces(ls[0])) + more;
      assert more[1..] == tail;
      assert ls == [ls[0]] + ls[1..];
    }
  }

  lemma LitsTokens(ls: seq<Lit>)
    requires |ls| > 1
    ensures Tokens(LitsPieces(ls)) == Tokens(LitPieces(ls[0])) + [Comma] + Tokens(LitsPieces(ls[1..]))
  {
    hide Tokens, LitPieces;
    TokensAround(LitPieces(ls[0]), [Lexeme(Comma), Space], LitsPieces(ls[1..]));
    TokensTwo(Lexeme(Comma), Space);
  }

  lemma ConstantReads(l: Lit, rest: seq<Token>)
    ensures ParseOperand(Tokens(OperandPieces(Constant(l))) + rest) == Some(Parsed(Constant(l), rest))
  {
    hide Tokens, LitPieces, ParseLit;
    LitReads(l, rest);
    LitPiecesTokens(l);
    assert (Tokens(LitPieces(l)) + rest)[0] == LitTokens(l)[0];
  }

  lemma NowReads(rest: seq<Token>)
    requires Follow(rest)
    ensures ParseOperand(Tokens(OperandPieces(Now)) + rest) == Some(Parsed(Now, rest))
  {
    hide Tokens, ParseLit;
    TokensThree(Lexeme(NowT), Lexeme(LParen), Lexeme(RParen));
    assert ([NowT, LParen, RParen] + rest)[3..] == rest;
  }

  lemma NowMinusReads(n: string, unit: string, rest: seq<Token>)
    ensures ParseOperand(Tokens(OperandPieces(NowMinus(n, unit))) + rest) == Some(Parsed(NowMinus(n, unit), rest))
  {
    hide Tokens, OperandPieces, ParseLit;
    NowMinusTokens(n, unit);
    assert ([NowT, LParen, RParen, Minus, IntervalT, Num(n), Ident(unit)] + rest)[7..] == rest;
  }

  lemma OperandReads(o: Operand, rest: seq<Token>)
    requires Follow(rest)
    ensures ParseOperand(Tokens(OperandPieces(o)) + rest) == Some(Parsed(o, rest))
  {
    hide Tokens, OperandPieces, ParseOperand;
    match o
    case Constant(l) => ConstantReads(l, rest);
    case Now => NowReads(rest);
    case NowMinus(n, unit) => NowMinusReads(n, unit, rest);
    case BestEffort(l) => BestEffortReads(l, rest);
  }

  lemma BestEffortReads(l: Lit, rest: seq<Token>)
    ensures ParseOperand(Tokens(OperandPieces(BestEffort(l))) + rest) == Some(Parsed(BestEffort(l), rest))
  {
    hide Tokens, LitPieces, ParseLit;
    var close := [RParen] + rest;
    LitReads(l, close);
    TokensAround([Lexeme(ParseTimeT), Lexeme(LParen)], LitPieces(l), [Lexeme(RParen)]);
    TokensTwo(Lexeme(ParseTimeT), Lexeme(LParen));
    TokensOne(Lexeme(RParen));
    assert Tokens([Lexeme(ParseTimeT), Lexeme(LParen)]) == [ParseTimeT, LParen];
    var lit := Tokens(LitPieces(l));
    Rebracket([ParseTimeT, LParen], lit, [RParen], rest);
    assert ([ParseTimeT, LParen] + (lit + close))[2..] == lit + close;
    assert close[1..] == rest;
  }

  lemma Rebracket<T>(a: seq<T>, b: seq<T>, c: seq<T>, d: seq<T>)
    ensures a + b + c + d == a + (b + (c + d))
  {
  }

  lemma NowMinusTokens(n: string, unit: string)
    ensures Tokens(OperandPieces(NowMinus(n, unit)))
         == [NowT, LParen, RParen, Minus, IntervalT, Num(n), Ident(unit)]
  {
    hide Tokens;
    var head := [Lexeme(NowT), Lexeme(LParen), Lexeme(RParen)];
    var mid := [Space, Lexeme(Minus), Space, Lexeme(IntervalT)];
    var tail := [Space, Lexeme(Num(n)), Space, Lexeme(Ident(unit))];
    TokensThree(Lexeme(NowT), Lexeme(LParen), Lexeme(RParen));
    TokensFour(Space, Lexeme(Minus), Space, Lexeme(IntervalT));
    TokensFour(Space, Lexeme(Num(n)), Space, Lexeme(Ident(unit)));
    TokensAround(head, mid, tail);
    assert OperandPieces(NowMinus(n, unit)) == head + mid + tail;
  }

  /** An empty IN list is the one thing the compiler writes that is not an expression. */
  function AtomExpr(a: Atom): Option<Expr> {
    if a.In? && a.lits == [] then None else Some(Leaf(a))
  }

  /** How the tokens of an atom begin: never like a negation or a parenthesis. */
  predicate AtomLed(ts: seq<Token>) {
    ts != [] && (ts[0].Num? || ts[0].HasT? || ts[0].HasAnyT? || ts[0].Ident?)
  }

  function FoundAtom(a: Atom, rest: seq<Token>): Option<Parsed<Atom>> {
    if AtomExpr(a).None? then None else Some(Parsed(a, rest))
  }

  ghost predicate ReadsAtom(a: Atom, rest: seq<Token>) {
    var ts := Tokens(AtomPieces(a)) + rest;
    AtomLed(ts) && ParseAtom(ts) == FoundAtom(a, rest)
  }

  lemma AtomReads(a: Atom)
    ensures Reads(Tokens(AtomPieces(a)), AtomExpr(a))
  {
    hide Tokens, AtomPieces, ParseAtom;
    forall rest | Follow(rest)
      ensures ParseNot(Tokens(AtomPieces(a)) + rest) == Found(AtomExpr(a), rest)
    {
      AtomReadsBefore(a, rest);
    }
  }

  lemma AtomReadsBefore(a: Atom, rest: seq<Token>)
    requires Follow(rest)
    ensures ReadsAtom(a, rest)
  {
    match a
    case One => OneReads(rest);
    case Cmp(col, op, rhs) => CmpReads(col, op, rhs, rest);
    case Has(col, l) => HasReads(col, l, rest);
    case HasAny(col, ls) => HasAnyReads(col, ls, rest);
    case In(col, ls) => InReads(col, ls, rest);
  }

  lemma OneReads(rest: seq<Token>)
    ensures ReadsAtom(One, rest)
  {
    TokensOne(Lexeme(Num("1")));
    assert ([Num("1")] + rest)[1..] == rest;
  }

  lemma CmpReads(col: string, op: CmpOp, rhs: Operand, rest: seq<Token>)
    requires Follow(rest)
    ensures ReadsAtom(Cmp(col, op, rhs), rest)
  {
    hide Tokens, AtomPieces, OperandPieces, ParseOperand;
    var tail := Tokens(OperandPieces(rhs)) + rest;
    CmpTokens(col, op, rhs, rest);
    OperandReads(rhs, rest);
    var more := [CmpToken(op)] + tail;
    var whole := [Ident(col)] + more;
    assert [Ident(col), CmpToken(op)] + tail == whole;
    assert whole[1..] == more && more[1..] == tail;
    assert ParseColumn(col, more) == Some(Parsed(Cmp(col, op, rhs), rest));
  }

  lemma CmpTokens(col: string, op: CmpOp, rhs: Operand, rest: seq<Token>)
    ensures Tokens(AtomPieces(Cmp(col, op, rhs))) + rest
         == [Ident(col), CmpToken(op)] + (Tokens(OperandPieces(rhs)) + rest)
  {
    hide Tokens, OperandPieces, CmpToken;
    TokensConcat([Lexeme(Ident(col)), Space, Lexeme(CmpToken(op)), Space], OperandPieces(rhs));
    TokensFour(Lexeme(Ident(col)), Space, Lexeme(CmpToken(op)), Space);
  }

  lemma HeadTokens(name: Token, col: string)
    ensures Tokens([Lexeme(name), Lexeme(LParen), Lexeme(Ident(col)), Lexeme(Comma), Space])
         == [name, LParen, Ident(col), Comma]
  {
    hide Tokens;
    var first := [Lexeme(name), Lexeme(LParen), Lexeme(Ident(col)), Lexeme(Comma)];
    assert [Lexeme(name), Lexeme(LParen), Lexeme(Ident(col)), Lexeme(Comma), Space] == first + [Space];
    TokensConcat(first, [Space]);
    TokensFour(Lexeme(name), Lexeme(LParen), Lexeme(Ident(col)), Lexeme(Comma));
    TokensOne(Space);
  }

  lemma HasTokens(col: string, l: Lit)
    ensures Tokens(AtomPieces(Has(col, l))) == [HasT, LParen, Ident(col), Comma] + Tokens(LitPieces(l)) + [RParen]
  {
    hide Tokens, LitPieces;
    var head := [Lexeme(HasT), Lexeme(LParen), Lexeme(Ident(col)), Lexeme(Comma), Space];
    HeadTokens(HasT, col);
    TokensAround(head, LitPieces(l), [Lexeme(RParen)]);
    TokensOne(Lexeme(RParen));
  }

  lemma HasReads(col: string, l: Lit, rest: seq<Token>)
    ensures ReadsAtom(Has(col, l), rest)
  {
    hide Tokens, AtomPieces, LitPieces, ParseLit;
    var close := [RParen] + rest;
    var after := Tokens(LitPieces(l)) + close;
    LitReads(l, close);
    HasTokens(col, l);
    Rebracket([HasT, LParen, Ident(col), Comma], Tokens(LitPieces(l)), [RParen], rest);
    var args := [LParen, Ident(col), Comma] + after;
    assert [HasT, LParen, Ident(col), Comma] + after == [HasT] + args;
    assert ([HasT] + args)[1..] == args && args[3..] == after && close[1..] == rest;
    assert ParseHas(args) == Some(Parsed(Has(col, l), rest));
  }

  lemma HasAnyTokens(col: string, ls: seq<Lit>)
    ensures Tokens(AtomPieces(HasAny(col, ls)))
         == [HasAnyT, LParen, Ident(col), Comma, LBracket] + Tokens(LitsPieces(ls)) + [RBracket, RParen]
  {
    hide Tokens, LitsPieces;
    var head := [Lexeme(HasAnyT), Lexeme(LParen), Lexeme(Ident(col)), Lexeme(Comma), Space];
    var end := [Lexeme(RBracket), Lexeme(RParen)];
    HeadTokens(HasAnyT, col);
    TokensConcat(head, [Lexeme(LBracket)]);
    TokensOne(Lexeme(LBracket));
    TokensTwo(Lexeme(RBracket), Lexeme(RParen));
    TokensAround(head + [Lexeme(LBracket)], LitsPieces(ls), end);
    assert AtomPieces(HasAny(col, ls)) == head + [Lexeme(LBracket)] + LitsPieces(ls) + end;
  }

  lemma HasAnyReads(col: string, ls: seq<Lit>, rest: seq<Token>)
    ensures ReadsAtom(HasAny(col, ls), rest)
  {
    hide Tokens, AtomPieces, LitsPieces, ParseHasAny;
    var close := [RBracket, RParen] + rest;
    var after := Tokens(LitsPieces(ls)) + close;
    HasAnyTokens(col, ls);
    Rebracket([HasAnyT, LParen, Ident(col), Comma, LBracket], Tokens(LitsPieces(ls)), [RBracket, RParen], rest);
    var args := [LParen, Ident(col), Comma, LBracket] + after;
    assert [HasAnyT, LParen, Ident(col), Comma, LBracket] + after == [HasAnyT] + args;
    assert ([HasAnyT] + args)[1..] == args;
    HasAnyArguments(col, ls, rest);
  }

  lemma HasAnyArguments(col: string, ls: seq<Lit>, rest: seq<Token>)
    ensures ParseHasAny([LParen, Ident(col), Comma, LBracket] + (Tokens(LitsPieces(ls)) + ([RBracket, RParen] + rest)))
         == Some(Parsed(HasAny(col, ls), rest))
  {
    hide Tokens, ParseLits, ParseHasAny;
    var close := [RBracket, RParen] + rest;
    if ls == [] {
      NoLits();
      assert Tokens(LitsPieces(ls)) + close == close;
      NoArguments(col, rest);
    } else {
      hide LitsPieces;
      LitsRead(ls, close);
      LitsStart(ls, close);
      SomeArguments(col, ls, Tokens(LitsPieces(ls)) + close, rest);
    }
  }

  lemma NoArguments(col: string, rest: seq<Token>)
    ensures ParseHasAny([LParen, Ident(col), Comma, LBracket] + ([RBracket, RParen] + rest))
         == Some(Parsed(HasAny(col, []), rest))
  {
    hide ParseLits;
    var args := [LParen, Ident(col), Comma, LBracket] + ([RBracket, RParen] + rest);
    assert args[4] == RBracket && args[5] == RParen && args[6..] == rest;
  }

  lemma SomeArguments(col: string, ls: seq<Lit>, after: seq<Token>, rest: seq<Token>)
    requires after != [] && after[0] != RBracket && ParseLits(after) == Some(Parsed(ls, [RBracket, RParen] + rest))
    ensures ParseHasAny([LParen, Ident(col), Comma, LBracket] + after) == Some(Parsed(HasAny(col, ls), rest))
  {
    hide ParseLits;
    var args := [LParen, Ident(col), Comma, LBracket] + after;
    var close := [RBracket, RParen] + rest;
    assert args[4..] == after && args[4] == after[0];
    assert close[0] == RBracket && close[1] == RParen && close[2..] == rest;
  }

  lemma LitsStart(ls: seq<Lit>, rest: seq<Token>)
    requires ls != []
    ensures var ts := Tokens(LitsPieces(ls)) + rest; ts != [] && ts[0] != RBracket && ts[0] != RParen
  {
    hide Tokens;
    LitPiecesTokens(ls[0]);
    if |ls| > 1 {
      LitsTokens(ls);
    }
  }

  lemma InTokens(col: string, ls: seq<Lit>)
    ensures Tokens(AtomPieces(In(col, ls))) == [Ident(col), InT, LParen] + Tokens(LitsPieces(ls)) + [RParen]
  {
    hide Tokens, LitsPieces;
    var head := [Lexeme(Ident(col)), Space, Lexeme(InT), Space];
    TokensFour(Lexeme(Ident(col)), Space, Lexeme(InT), Space);
    TokensConcat(head, [Lexeme(LParen)]);
    TokensOne(Lexeme(LParen));
    TokensOne(Lexeme(RParen));
    TokensAround(head + [Lexeme(LParen)], LitsPieces(ls), [Lexeme(RParen)]);
    assert AtomPieces(In(col, ls)) == head + [Lexeme(LParen)] + LitsPieces(ls) + [Lexeme(RParen)];
  }

  lemma InReads(col: string, ls: seq<Lit>, rest: seq<Token>)
    ensures ReadsAtom(In(col, ls), rest)
  {
    hide Tokens, AtomPieces, LitsPieces, ParseColumn;
    var after := Tokens(LitsPieces(ls)) + ([RParen] + rest);
    InTokens(col, ls);
    Rebracket([Ident(col), InT, LParen], Tokens(LitsPieces(ls)), [RParen], rest);
    var args := [InT, LParen] + after;
    assert [Ident(col), InT, LParen] + after == [Ident(col)] + args;
    assert ([Ident(col)] + args)[1..] == args;
    InArguments(col, ls, rest);
  }

  lemma InArguments(col: string, ls: seq<Lit>, rest: seq<Token>)
    ensures ParseColumn(col, [InT, LParen] + (Tokens(LitsPieces(ls)) + ([RParen] + rest))) ==
        FoundAtom(In(col, ls), rest)
  {
    hide Tokens, LitsPieces;
    var close := [RParen] + rest;
    var after := Tokens(LitsPieces(ls)) + close;
    assert ([InT, LParen] + after)[2..] == after;
    assert close[1..] == rest;
    if ls == [] {
      NoLits();
      assert after == close;
    } else {
      hide ParseLits;
      LitsRead(ls, close);
    }
  }

  lemma NoLits()
    ensures Tokens(LitsPieces([])) == []
  {
  }

  // ---------------------------------------------------------------- clauses

  function AtomExprs(atoms: seq<Atom>): seq<Option<Expr>> {
    if atoms == [] then [] else [AtomExpr(atoms[0])] + AtomExprs(atoms[1..])
  }

  function TermExpr(l: LTerm): Option<Expr> {
    match l
    case Fielded(a) => AtomExpr(a)
    case Free(choices) => OrAll(AtomExprs(choices))
  }

  function TermExprs(t: Table, g: seq<string>): seq<Option<Expr>> {
    if g == [] then [] else [TermExpr(TermOf(t, g[0]))] + TermExprs(t, g[1..])
  }

  function GroupExprs(t: Table, gs: seq<seq<string>>): seq<Option<Expr>> {
    if gs == [] then [] else [AndAll(TermExprs(t, gs[0]))] + GroupExprs(t, gs[1..])
  }

  function LuceneExpr(t: Table, text: string): Option<Expr> {
    var s := Strip(text, IsBlank);
    if s == "" then Some(Leaf(One)) else OrAll(GroupExprs(t, Groups(Split(s))))
  }

  function ConjunctionExpr(es: seq<Option<Expr>>): Option<Expr> {
    if es == [] then Some(Leaf(One)) else AndAll(es)
  }

  function NegateExprs(es: seq<Option<Expr>>): seq<Option<Expr>> {
    if es == [] then [] else [NotOf(es[0])] + NegateExprs(es[1..])
  }

  /** The tree the compiled text of q parses to; none if the text is not an expression. */
  function ExprOf(t: Table, q: Query): Option<Expr>
    requires Mapped(t, q)
    decreases q
  {
    match q
    case Bool(must, mustNot, should, _) =>
      var s := ExprsOf(t, should);
      ConjunctionExpr(ExprsOf(t, must) + NegateExprs(ExprsOf(t, mustNot)) + if s == [] then [] else [OrAll(s)])
    case Range(field, bounds) => ConjunctionExpr(AtomExprs(RangeAtoms(t.fields[field], bounds)))
    case Term(field, value) =>
      var col := t.fields[field];
      AtomExpr(if col in t.arrays then Has(col, LitOf(value)) else Cmp(col, Eq, Constant(LitOf(value))))
    case Terms(field, values) =>
      var col := t.fields[field];
      AtomExpr(if col in t.arrays then HasAny(col, LitsOf(values)) else In(col, LitsOf(values)))
    case Ids(values) => AtomExpr(In("alert_id", LitsOf(values)))
    case QueryString(text) => LuceneExpr(t, text)
    case MatchAll => Some(Leaf(One))
  }

  function ExprsOf(t: Table, qs: seq<Query>): (es: seq<Option<Expr>>)
    requires forall i :: 0 <= i < |qs| ==> Mapped(t, qs[i])
    ensures |es| == |qs| && forall i :: 0 <= i < |qs| ==> es[i] == ExprOf(t, qs[i])
    decreases qs
  {
    if qs == [] then [] else [ExprOf(t, qs[0])] + ExprsOf(t, qs[1..])
  }

  lemma {:induction false} AtomsRead(atoms: seq<Atom>)
    ensures AllRead(AtomsPieces(atoms), AtomExprs(atoms))
  {
    hide Reads, AtomPieces;
    if atoms != [] {
      AtomReads(atoms[0]);
      AtomsRead(atoms[1..]);
    }
  }

  lemma {:induction false} AllReadUp(parts: seq<seq<Piece>>, es: seq<Option<Expr>>)
    requires AllRead(parts, es)
    ensures AllReadAnd(parts, es)
  {
    hide Reads, ReadsAnd;
    forall i | 0 <= i < |parts|
      ensures ReadsAnd(Tokens(parts[i]), es[i])
    {
      ReadsIsReadsAnd(Tokens(parts[i]), es[i]);
    }
  }

  lemma {:induction false} DisjunctionOfReads(parts: seq<seq<Piece>>, es: seq<Option<Expr>>)
    requires AllRead(parts, es)
    ensures Reads(Tokens(Paren(Join(parts, OrT))), OrAll(es))
  {
    hide Reads, ReadsAnd, ReadsOr, Tokens, Paren;
    AllReadUp(parts, es);
    JoinReadsOr(parts, es);
    ParenthesesRead(Tokens(Join(parts, OrT)), OrAll(es));
    ParenTokens(Join(parts, OrT));
  }

  lemma {:induction false} ConjunctionOfReads(parts: seq<seq<Piece>>, es: seq<Option<Expr>>)
    requires AllRead(parts, es)
    ensures Reads(Tokens(Conjunction(parts)), ConjunctionExpr(es))
  {
    hide Reads, ReadsAnd, ReadsOr, Tokens, Paren;
    if parts == [] {
      AtomReads(One);
    } else {
      JoinReadsAnd(parts, es);
      ReadsAndIsReadsOr(Tokens(Join(parts, AndT)), AndAll(es));
      ParenthesesRead(Tokens(Join(parts, AndT)), AndAll(es));
      ParenTokens(Join(parts, AndT));
    }
  }

  lemma {:induction false} NegationsRead(parts: seq<seq<Piece>>, es: seq<Option<Expr>>)
    requires AllRead(parts, es)
    ensures AllRead(NegateAll(parts), NegateExprs(es))
  {
    hide Reads, ReadsOr, ReadsAnd, Tokens, Paren, Negated;
    if parts != [] {
      var ts := Tokens(parts[0]);
      ReadsIsReadsAnd(ts, es[0]);
      ReadsAndIsReadsOr(ts, es[0]);
      ParenthesesRead(ts, es[0]);
      ParenTokens(parts[0]);
      NegationReads(Tokens(Paren(parts[0])), es[0]);
      NegatedTokens(parts[0]);
      NegationsRead(parts[1..], es[1..]);
    }
  }

  lemma {:induction false} TermReads(l: LTerm)
    ensures Reads(Tokens(TermPieces(l)), TermExpr(l))
  {
    hide Reads, Tokens, Paren, AtomPieces;
    match l
    case Fielded(a) => AtomReads(a);
    case Free(choices) =>
      AtomsRead(choices);
      DisjunctionOfReads(AtomsPieces(choices), AtomExprs(choices));
  }

  // ---------------------------------------------------------------- query strings

  function GroupPieces(t: Table, g: seq<string>): seq<seq<Piece>> {
    if g == [] then [] else [TermPieces(TermOf(t, g[0]))] + GroupPieces(t, g[1..])
  }

  function GroupsPieces(t: Table, gs: seq<seq<string>>): seq<seq<Piece>> {
    if gs == [] then [] else [Join(GroupPieces(t, gs[0]), AndT)] + GroupsPieces(t, gs[1..])
  }

  lemma {:induction false} GroupRead(t: Table, g: seq<string>)
    ensures AllRead(GroupPieces(t, g), TermExprs(t, g))
  {
    hide Reads, TermPieces, TermOf, TermExpr;
    if g != [] {
      TermReads(TermOf(t, g[0]));
      GroupRead(t, g[1..]);
    }
  }

  lemma {:induction false} GroupsRead(t: Table, gs: seq<seq<string>>)
    requires forall i :: 0 <= i < |gs| ==> gs[i] != []
    ensures AllReadAnd(GroupsPieces(t, gs), GroupExprs(t, gs))
  {
    hide Reads, ReadsAnd, Join, Tokens, AndAll;
    if gs != [] {
      GroupRead(t, gs[0]);
      JoinReadsAnd(GroupPieces(t, gs[0]), TermExprs(t, gs[0]));
      GroupsRead(t, gs[1..]);
    }
  }

  lemma JoinCons(a: seq<Piece>, parts: seq<seq<Piece>>, joiner: Token)
    requires parts != []
    ensures Join([a] + parts, joiner) == a + [Space, Lexeme(joiner), Space] + Join(parts, joiner)
  {
    assert ([a] + parts)[1..] == parts;
  }

  lemma JoinExtendFirst(a: seq<Piece>, sep: seq<Piece>, first: seq<Piece>, parts: seq<seq<Piece>>, joiner: Token)
    ensures Join([a + sep + first] + parts, joiner) == a + sep + Join([first] + parts, joiner)
  {
    if parts != [] {
      JoinCons(a + sep + first, parts, joiner);
      JoinCons(first, parts, joiner);
    }
  }

  lemma GroupPiecesCons(t: Table, term: string, g: seq<string>)
    requires g != []
    ensures Join(GroupPieces(t, [term] + g), AndT)
         == TermPieces(TermOf(t, term)) + [Space, Lexeme(AndT), Space] + Join(GroupPieces(t, g), AndT)
  {
    hide TermPieces, TermOf;
    assert ([term] + g)[1..] == g;
    JoinCons(TermPieces(TermOf(t, term)), GroupPieces(t, g), AndT);
  }

  lemma GroupsPiecesCons(t: Table, g: seq<string>, gs: seq<seq<string>>)
    ensures GroupsPieces(t, [g] + gs) == [Join(GroupPieces(t, g), AndT)] + GroupsPieces(t, gs)
  {
    assert ([g] + gs)[1..] == gs;
  }

  /** The flat chain is an OR of AND-groups. */
  lemma {:induction false} ChainIsGroups(t: Table, split: seq<string>)
    requires |split| % 2 == 1
    ensures Chain(t, split) == Join(GroupsPieces(t, Groups(split)), OrT)
  {
    hide TermPieces, TermOf;
    var head := TermPieces(TermOf(t, split[0]));
    assert [split[0]][1..] == [];
    assert GroupPieces(t, [split[0]]) == [head];
    if |split| == 1 {
      GroupsPiecesCons(t, [split[0]], []);
      assert [[split[0]]] + [] == [[split[0]]];
    } else {
      ChainIsGroups(t, split[2..]);
      var gs := Groups(split[2..]);
      var sep := [Space, Lexeme(JoinerToken(split[1])), Space];
      if split[1] == "OR" {
        GroupsPiecesCons(t, [split[0]], gs);
        JoinCons(head, GroupsPieces(t, gs), OrT);
      } else {
        var first := Join(GroupPieces(t, gs[0]), AndT);
        GroupPiecesCons(t, split[0], gs[0]);
        GroupsPiecesCons(t, [split[0]] + gs[0], gs[1..]);
        GroupsPiecesCons(t, gs[0], gs[1..]);
        assert gs == [gs[0]] + gs[1..];
        JoinExtendFirst(head, sep, first, GroupsPieces(t, gs[1..]), OrT);
      }
    }
  }

  lemma {:induction false} LuceneReads(t: Table, text: string)
    ensures Reads(Tokens(Lucene(t, text)), LuceneExpr(t, text))
  {
    hide Reads, ReadsAnd, ReadsOr, Tokens, Paren, AtomPieces, Split, Strip, Groups;
    var s := Strip(text, IsBlank);
    if s == "" {
      AtomReads(One);
    } else {
      var gs := Groups(Split(s));
      ChainIsGroups(t, Split(s));
      GroupsRead(t, gs);
      JoinReadsOr(GroupsPieces(t, gs), GroupExprs(t, gs));
      ParenthesesRead(Tokens(Chain(t, Split(s))), OrAll(GroupExprs(t, gs)));
      ParenTokens(Chain(t, Split(s)));
    }
  }

  // ---------------------------------------------------------------- whole trees

  lemma {:induction false} TranslatesIffMapped(t: Table, q: Query)
    ensures Clause(t, q).Success? <==> Mapped(t, q)
    decreases q
  {
    if q.Bool? {
      AllTranslateIffMapped(t, q.must);
      AllTranslateIffMapped(t, q.mustNot);
      AllTranslateIffMapped(t, q.should);
    }
  }

  lemma {:induction false} AllTranslateIffMapped(t: Table, qs: seq<Query>)
    ensures Clauses(t, qs).Success? <==> forall i :: 0 <= i < |qs| ==> Mapped(t, qs[i])
    decreases qs
  {
    if qs != [] {
      TranslatesIffMapped(t, qs[0]);
      AllTranslateIffMapped(t, qs[1..]);
      assert forall i :: 1 <= i < |qs| ==> qs[i] == qs[1..][i - 1];
    }
  }

  lemma AllReadConcat(a: seq<seq<Piece>>, ea: seq<Option<Expr>>, b: seq<seq<Piece>>, eb: seq<Option<Expr>>)
    requires AllRead(a, ea) && AllRead(b, eb)
    ensures AllRead(a + b, ea + eb)
  {
  }

  lemma {:induction false} ClauseReads(t: Table, q: Query)
    requires Mapped(t, q) && Clause(t, q).Success?
    ensures Reads(Tokens(Clause(t, q).value), ExprOf(t, q))
    decreases q
  {
    hide Reads, Tokens, AtomPieces, Lucene, LuceneExpr, Conjunction, ConjunctionExpr;
    match q
    case Bool(must, mustNot, should, _) =>
      var m, n, s := Clauses(t, must).value, Clauses(t, mustNot).value, Clauses(t, should).value;
      var em, en, es := ExprsOf(t, must), ExprsOf(t, mustNot), ExprsOf(t, should);
      ClausesRead(t, must);
      ClausesRead(t, mustNot);
      ClausesRead(t, should);
      NegationsRead(n, en);
      DisjunctionOfReads(s, es);
      var last := if es == [] then [] else [OrAll(es)];
      assert AllRead(Disjunction(s), last);
      AllReadConcat(m, em, NegateAll(n), NegateExprs(en));
      AllReadConcat(m + NegateAll(n), em + NegateExprs(en), Disjunction(s), last);
      ConjunctionOfReads(m + NegateAll(n) + Disjunction(s), em + NegateExprs(en) + last);
    case Range(field, bounds) =>
      var atoms := RangeAtoms(t.fields[field], bounds);
      AtomsRead(atoms);
      ConjunctionOfReads(AtomsPieces(atoms), AtomExprs(atoms));
    case Term(field, value) =>
      var col := t.fields[field];
      AtomReads(if col in t.arrays then Has(col, LitOf(value)) else Cmp(col, Eq, Constant(LitOf(value))));
    case Terms(field, values) =>
      var col := t.fields[field];
      AtomReads(if col in t.arrays then HasAny(col, LitsOf(values)) else In(col, LitsOf(values)));
    case Ids(values) =>
      AtomReads(In("alert_id", LitsOf(values)));
    case QueryString(text) =>
      LuceneReads(t, text);
    case MatchAll =>
      AtomReads(One);
  }

  lemma {:induction false} ClausesRead(t: Table, qs: seq<Query>)
    requires forall i :: 0 <= i < |qs| ==> Mapped(t, qs[i])
    requires Clauses(t, qs).Success?
    ensures AllRead(Clauses(t, qs).value, ExprsOf(t, qs))
    decreases qs
  {
    hide Reads;
    if qs != [] {
      ClauseReads(t, qs[0]);
      ClausesRead(t, qs[1..]);
    }
  }

  // ---------------------------------------------------------------- meaning of the expected tree

  ghost predicate AllHold(es: seq<Option<Expr>>, row: Row) {
    forall i :: 0 <= i < |es| ==> es[i].Some? && Holds(es[i].value, row)
  }

  ghost predicate OneHolds(es: seq<Option<Expr>>, row: Row) {
    exists i :: 0 <= i < |es| && es[i].Some? && Holds(es[i].value, row)
  }

  predicate AllThere(es: seq<Option<Expr>>) {
    forall i :: 0 <= i < |es| ==> es[i].Some?
  }

  lemma {:induction false} AndAllMeans(es: seq<Option<Expr>>, row: Row)
    ensures AndAll(es).Some? <==> es != [] && AllThere(es)
    ensures AndAll(es).Some? ==> (Holds(AndAll(es).value, row) <==> AllHold(es, row))
  {
    if |es| > 1 {
      AndAllMeans(es[1..], row);
      assert forall i :: 1 <= i < |es| ==> es[i] == es[1..][i - 1];
    }
  }

  lemma {:induction false} OrAllMeans(es: seq<Option<Expr>>, row: Row)
    ensures OrAll(es).Some? <==> es != [] && AllThere(es)
    ensures OrAll(es).Some? ==> (Holds(OrAll(es).value, row) <==> OneHolds(es, row))
  {
    if |es| > 1 {
      OrAllMeans(es[1..], row);
      assert forall i :: 1 <= i < |es| ==> es[i] == es[1..][i - 1];
    }
  }

  lemma {:induction false} AtomExprsAre(atoms: seq<Atom>)
    ensures |AtomExprs(atoms)| == |atoms|
    ensures forall i :: 0 <= i < |atoms| ==> AtomExprs(atoms)[i] == AtomExpr(atoms[i])
  {
    if atoms != [] {
      AtomExprsAre(atoms[1..]);
    }
  }

  lemma {:induction false} SubstringAre(cols: seq<string>, text: string)
    ensures |Substring(cols, text)| == |cols|
    ensures forall i :: 0 <= i < |cols| ==> Substring(cols, text)[i].Cmp?
  {
    if cols != [] {
      SubstringAre(cols[1..], text);
    }
  }

  lemma {:induction false} ChoicesMean(choices: seq<Atom>, row: Row)
    requires forall a :: a in choices ==> a.Cmp?
    ensures OrAll(AtomExprs(choices)).Some? <==> choices != []
    ensures choices != [] ==>
      (Holds(OrAll(AtomExprs(choices)).value, row) <==> exists a :: a in choices && AtomHolds(a, row))
  {
    hide AtomHolds;
    var es := AtomExprs(choices);
    AtomExprsAre(choices);
    OrAllMeans(es, row);
    forall i | 0 <= i < |choices|
      ensures es[i] == Some(Leaf(choices[i]))
    {
      assert choices[i] in choices;
    }
  }

  lemma TermShape(t: Table, raw: string)
    ensures TermOf(t, raw).Fielded? ==> !TermOf(t, raw).a.In?
    ensures TermOf(t, raw).Free? ==>
      |TermOf(t, raw).choices| == |FreeColumns(t)| && forall a :: a in TermOf(t, raw).choices ==> a.Cmp?
  {
    hide Strip, LastSegment, FreeColumns, IndexOf, SplitCompare, IsNumeral, IsFieldName, Replace;
    SubstringAre(FreeColumns(t), Strip(LastSegment(Strip(raw, IsBlank)), ch => ch == '"' || ch == '*'));
  }

  lemma {:induction false} TermMeans(t: Table, raw: string, row: Row)
    ensures var l := TermOf(t, raw);
      && (TermExpr(l).Some? <==> l.Fielded? || FreeColumns(t) != [])
      && (TermExpr(l).Some? ==> (Holds(TermExpr(l).value, row) <==> LTermHolds(l, row)))
  {
    hide TermOf, FreeColumns;
    var l := TermOf(t, raw);
    TermShape(t, raw);
    if l.Free? {
      ChoicesMean(l.choices, row);
    }
  }

  lemma {:induction false} TermExprsAre(t: Table, g: seq<string>)
    ensures |TermExprs(t, g)| == |g|
    ensures forall i :: 0 <= i < |g| ==> TermExprs(t, g)[i] == TermExpr(TermOf(t, g[i]))
  {
    hide TermOf, TermExpr;
    if g != [] {
      TermExprsAre(t, g[1..]);
    }
  }

  lemma {:induction false} GroupExprsAre(t: Table, gs: seq<seq<string>>)
    ensures |GroupExprs(t, gs)| == |gs|
    ensures forall i :: 0 <= i < |gs| ==> GroupExprs(t, gs)[i] == AndAll(TermExprs(t, gs[i]))
  {
    hide AndAll, TermExprs;
    if gs != [] {
      GroupExprsAre(t, gs[1..]);
    }
  }

  ghost predicate TermReadable(t: Table, term: string) {
    TermOf(t, term).Fielded? || FreeColumns(t) != []
  }

  ghost predicate TermHolds(t: Table, term: string, row: Row) {
    LTermHolds(TermOf(t, term), row)
  }

  lemma {:induction false} GroupMeans(t: Table, g: seq<string>, row: Row)
    requires g != []
    ensures AndAll(TermExprs(t, g)).Some? <==> forall term :: term in g ==> TermReadable(t, term)
    ensures AndAll(TermExprs(t, g)).Some? ==>
      (Holds(AndAll(TermExprs(t, g)).value, row) <==> forall term :: term in g ==> TermHolds(t, term, row))
  {
    var es := TermExprs(t, g);
    TermExprsAre(t, g);
    AndAllMeans(es, row);
    forall i | 0 <= i < |g|
      ensures es[i].Some? <==> TermReadable(t, g[i])
      ensures es[i].Some? ==> (Holds(es[i].value, row) <==> TermHolds(t, g[i], row))
    {
      TermMeans(t, g[i], row);
    }
    hide TermReadable, TermHolds, TermExprs, AndAll;
  }

  lemma {:induction false} GroupsMean(t: Table, gs: seq<seq<string>>, row: Row)
    requires gs != [] && forall i :: 0 <= i < |gs| ==> gs[i] != []
    ensures var e := OrAll(GroupExprs(t, gs));
      && (e.Some? <==> forall g, term :: g in gs && term in g ==> TermReadable(t, term))
      && (e.Some? ==>
          (Holds(e.value, row) <==> exists g :: g in gs && forall term :: term in g ==> TermHolds(t, term, row)))
  {
    hide TermReadable, TermHolds, TermExprs, AndAll;
    var es := GroupExprs(t, gs);
    GroupExprsAre(t, gs);
    OrAllMeans(es, row);
    forall i | 0 <= i < |gs|
      ensures es[i].Some? <==> forall term :: term in gs[i] ==> TermReadable(t, term)
      ensures es[i].Some? ==> (Holds(es[i].value, row) <==> forall term :: term in gs[i] ==> TermHolds(t, term, row))
    {
      GroupMeans(t, gs[i], row);
    }
    hide OrAll, GroupExprs;
    if AllThere(es) {
      if OneHolds(es, row) {
        var i :| 0 <= i < |es| && es[i].Some? && Holds(es[i].value, row);
        assert gs[i] in gs;
      }
    }
  }

  lemma {:induction false} LuceneMeans(t: Table, text: string, row: Row)
    ensures LuceneExpr(t, text).Some? <==> NoEmptyList(t, QueryString(text))
    ensures LuceneExpr(t, text).Some? ==> (Holds(LuceneExpr(t, text).value, row) <==> QueryStringHolds(t, text, row))
  {
    hide Strip, Split, Groups, OrAll, GroupExprs, FreeColumns, TermOf, LTermHolds;
    var s := Strip(text, IsBlank);
    if s != "" {
      GroupsMean(t, Groups(Split(s)), row);
    }
  }

  lemma {:induction false} RangeAtomsMean(col: string, bounds: seq<Bound>, row: Row)
    ensures AllThere(AtomExprs(RangeAtoms(col, bounds)))
    ensures AllHold(AtomExprs(RangeAtoms(col, bounds)), row) <==>
      forall b :: b in bounds && RangeOp(b.op).Some? ==> row.cmp(col, RangeOp(b.op).value, BoundOperand(col, b.value))
  {
    hide RangeOp, BoundOperand;
    if bounds != [] {
      RangeAtomsMean(col, bounds[1..], row);
      var first, more := bounds[0], RangeAtoms(col, bounds[1..]);
      assert bounds == [first] + bounds[1..];
      if RangeOp(first.op).Some? {
        var a := Cmp(col, RangeOp(first.op).value, BoundOperand(col, first.value));
        assert RangeAtoms(col, bounds) == [a] + more;
        assert ([a] + more)[1..] == more;
        assert AtomExprs([a] + more) == [Some(Leaf(a))] + AtomExprs(more);
        ConcatParts([Some(Leaf(a))], AtomExprs(more), row);
        assert [Some(Leaf(a))][0] == Some(Leaf(a));
        assert AllHold([Some(Leaf(a))], row) <==> Holds(Leaf(a), row);
      } else {
        assert RangeAtoms(col, bounds) == more;
      }
    }
  }

  lemma {:induction false} LitsOfAre(vs: seq<Scalar>)
    ensures |LitsOf(vs)| == |vs| && forall i :: 0 <= i < |vs| ==> LitsOf(vs)[i] == LitOf(vs[i])
  {
    if vs != [] {
      LitsOfAre(vs[1..]);
    }
  }

  lemma {:induction false} NegateExprsAre(es: seq<Option<Expr>>)
    ensures |NegateExprs(es)| == |es| && forall i :: 0 <= i < |es| ==> NegateExprs(es)[i] == NotOf(es[i])
  {
    if es != [] {
      NegateExprsAre(es[1..]);
    }
  }

  /** The expected tree is there exactly when no list is empty, and holds on exactly the rows
      the query selects. */
  lemma {:induction false} ExprMeans(t: Table, q: Query, row: Row)
    requires Mapped(t, q)
    ensures ExprOf(t, q).Some? <==> NoEmptyList(t, q)
    ensures ExprOf(t, q).Some? ==> (Holds(ExprOf(t, q).value, row) <==> Selects(t, q, row))
    decreases q
  {
    match q
    case Bool(must, mustNot, should, _) =>
      BoolMeans(t, q, row);
    case Range(field, bounds) =>
      var es := AtomExprs(RangeAtoms(t.fields[field], bounds));
      RangeAtomsMean(t.fields[field], bounds, row);
      AndAllMeans(es, row);
    case Term(field, value) =>
    case Terms(field, values) =>
      LitsOfAre(values);
      forall l | l in LitsOf(values)
        ensures exists v :: v in values && LitOf(v) == l
      {
        var i :| 0 <= i < |values| && LitsOf(values)[i] == l;
        assert values[i] in values;
      }
    case Ids(values) =>
      LitsOfAre(values);
      forall l | l in LitsOf(values)
        ensures exists v :: v in values && LitOf(v) == l
      {
        var i :| 0 <= i < |values| && LitsOf(values)[i] == l;
        assert values[i] in values;
      }
    case QueryString(text) =>
      LuceneMeans(t, text, row);
    case MatchAll =>
  }

  ghost predicate AllSelect(t: Table, qs: seq<Query>, row: Row)
    requires forall i :: 0 <= i < |qs| ==> Mapped(t, qs[i])
  {
    forall i :: 0 <= i < |qs| ==> Selects(t, qs[i], row)
  }

  ghost predicate OneSelects(t: Table, qs: seq<Query>, row: Row)
    requires forall i :: 0 <= i < |qs| ==> Mapped(t, qs[i])
  {
    exists i :: 0 <= i < |qs| && Selects(t, qs[i], row)
  }

  lemma {:induction false} EachMeans(t: Table, qs: seq<Query>, row: Row)
    requires forall i :: 0 <= i < |qs| ==> Mapped(t, qs[i])
    ensures AllThere(ExprsOf(t, qs)) <==> NoneEmpty(t, qs)
    ensures AllThere(ExprsOf(t, qs)) ==>
      && (AllHold(ExprsOf(t, qs), row) <==> AllSelect(t, qs, row))
      && (OneHolds(ExprsOf(t, qs), row) <==> OneSelects(t, qs, row))
    decreases qs
  {
    forall i | 0 <= i < |qs|
      ensures ExprOf(t, qs[i]).Some? <==> NoEmptyList(t, qs[i])
      ensures ExprOf(t, qs[i]).Some? ==> (Holds(ExprOf(t, qs[i]).value, row) <==> Selects(t, qs[i], row))
    {
      ExprMeans(t, qs[i], row);
    }
    hide ExprOf, Holds, Selects, NoEmptyList;
  }

  lemma BoolSelects(t: Table, q: Query, row: Row)
    requires Mapped(t, q) && q.Bool?
    ensures Selects(t, q, row) <==>
      AllSelect(t, q.must, row) && !OneSelects(t, q.mustNot, row) && (q.should != [] ==> OneSelects(t, q.should, row))
  {
  }

  ghost predicate NoneEmpty(t: Table, qs: seq<Query>)
    requires forall i :: 0 <= i < |qs| ==> Mapped(t, qs[i])
  {
    forall i :: 0 <= i < |qs| ==> NoEmptyList(t, qs[i])
  }

  lemma BoolNoneEmpty(t: Table, q: Query)
    requires Mapped(t, q) && q.Bool?
    ensures NoEmptyList(t, q) <==> NoneEmpty(t, q.must) && NoneEmpty(t, q.mustNot) && NoneEmpty(t, q.should)
  {
  }

  function BoolParts(t: Table, q: Query): seq<Option<Expr>>
    requires Mapped(t, q) && q.Bool?
  {
    var es := ExprsOf(t, q.should);
    ExprsOf(t, q.must) + NegateExprs(ExprsOf(t, q.mustNot)) + if es == [] then [] else [OrAll(es)]
  }

  lemma BoolExpr(t: Table, q: Query)
    requires Mapped(t, q) && q.Bool?
    ensures ExprOf(t, q) == ConjunctionExpr(BoolParts(t, q))
  {
  }

  lemma {:induction false} BoolMeans(t: Table, q: Query, row: Row)
    requires Mapped(t, q) && q.Bool?
    ensures ExprOf(t, q).Some? <==> NoEmptyList(t, q)
    ensures ExprOf(t, q).Some? ==> (Holds(ExprOf(t, q).value, row) <==> Selects(t, q, row))
    decreases q, 0
  {
    EachMeans(t, q.must, row);
    EachMeans(t, q.mustNot, row);
    EachMeans(t, q.should, row);
    BoolExpr(t, q);
    BoolSelects(t, q, row);
    BoolNoneEmpty(t, q);
    AndAllMeans(BoolParts(t, q), row);
    PartsMean(ExprsOf(t, q.must), ExprsOf(t, q.mustNot), ExprsOf(t, q.should), row);
    hide ExprOf, Selects, NoEmptyList, AndAll, OrAll, NegateExprs, AllThere, AllHold, OneHolds, AllSelect, OneSelects;
    if BoolParts(t, q) == [] {
      NothingMeans(row);
    }
  }

  lemma NothingMeans(row: Row)
    ensures AllThere([]) && AllHold([], row)
  {
  }

  /** The three groups of a Boolean node, taken together. */
  lemma PartsMean(em: seq<Option<Expr>>, en: seq<Option<Expr>>, es: seq<Option<Expr>>, row: Row)
    ensures var parts := em + NegateExprs(en) + if es == [] then [] else [OrAll(es)];
      && (AllThere(parts) <==> AllThere(em) && AllThere(en) && AllThere(es))
      && (AllThere(parts) ==>
           (AllHold(parts, row) <==>
             AllHold(em, row) && !OneHolds(en, row) && (es != [] ==> OneHolds(es, row))))
  {
    var neg := NegateExprs(en);
    var last := if es == [] then [] else [OrAll(es)];
    NegateExprsAre(en);
    OrAllMeans(es, row);
    ConcatParts(em + neg, last, row);
    ConcatParts(em, neg, row);
    hide OrAll;
    assert es != [] ==> last[0] == OrAll(es);
    assert AllThere(last) <==> AllThere(es);
    assert AllThere(neg) <==> AllThere(en);
  }

  lemma ConcatParts(a: seq<Option<Expr>>, b: seq<Option<Expr>>, row: Row)
    ensures AllThere(a + b) <==> AllThere(a) && AllThere(b)
    ensures AllHold(a + b, row) <==> AllHold(a, row) && AllHold(b, row)
  {
    assert forall i :: 0 <= i < |a| ==> (a + b)[i] == a[i];
    assert forall i :: 0 <= i < |b| ==> (a + b)[|a| + i] == b[i];
  }

  // ---------------------------------------------------------------- the text itself

  predicate Neutral(p: Piece) {
    p.Space? || !(IsWordToken(p.t) || p.t.GtT? || p.t.LtT? || p.t.EqT?)
  }

  /** Well-spaced runs stay so when something neutral stands between them. */
  lemma SpacedAround(a: seq<Piece>, mid: seq<Piece>, b: seq<Piece>)
    requires WellSpaced(a) && WellSpaced(mid) && WellSpaced(b)
    requires mid != [] && Neutral(mid[0]) && Neutral(mid[|mid| - 1])
    ensures WellSpaced(a + mid + b)
  {
    SpacedConcat(a, mid);
    SpacedConcat(a + mid, b);
  }

  lemma SpacedBetween(a: seq<Piece>, mid: seq<Piece>, b: seq<Piece>)
    requires WellSpaced(a) && WellSpaced(mid) && WellSpaced(b)
    requires a != [] && b != [] && Neutral(a[|a| - 1]) && Neutral(b[0])
    ensures WellSpaced(a + mid + b)
  {
    SpacedConcat(a, mid);
    SpacedConcat(a + mid, b);
  }

  lemma SpacedConcat(a: seq<Piece>, b: seq<Piece>)
    requires WellSpaced(a) && WellSpaced(b)
    requires a == [] || b == [] || Neutral(a[|a| - 1]) || Neutral(b[0])
    ensures WellSpaced(a + b)
  {
    var c := a + b;
    forall i | 0 <= i < |c|
      ensures c[i].Space? || Writable(c[i].t)
    {
      assert c[i] == if i < |a| then a[i] else b[i - |a|];
    }
    forall i | 0 <= i < |c| - 1
      ensures !Clash(c[i], c[i + 1])
    {
      assert c[i] == if i < |a| then a[i] else b[i - |a|];
      assert c[i + 1] == if i + 1 < |a| then a[i + 1] else b[i + 1 - |a|];
    }
  }

  ghost predicate WritableLit(l: Lit) {
    l.Number? ==> Writable(Num(l.digits))
  }

  ghost predicate WritableOperand(o: Operand) {
    match o
    case Constant(l) => WritableLit(l)
    case Now => true
    case NowMinus(n, unit) => Writable(Num(n)) && Writable(Ident(unit))
    case BestEffort(l) => WritableLit(l)
  }

  ghost predicate WritableAtom(a: Atom) {
    match a
    case One => true
    case Cmp(col, _, rhs) => Writable(Ident(col)) && WritableOperand(rhs)
    case Has(col, l) => Writable(Ident(col)) && WritableLit(l)
    case HasAny(col, ls) => Writable(Ident(col)) && forall i :: 0 <= i < |ls| ==> WritableLit(ls[i])
    case In(col, ls) => Writable(Ident(col)) && forall i :: 0 <= i < |ls| ==> WritableLit(ls[i])
  }

  lemma {:induction false} LitsSpaced(ls: seq<Lit>)
    requires forall i :: 0 <= i < |ls| ==> WritableLit(ls[i])
    ensures WellSpaced(LitsPieces(ls))
  {
    if |ls| > 1 {
      LitsSpaced(ls[1..]);
      SpacedAround(LitPieces(ls[0]), [Lexeme(Comma), Space], LitsPieces(ls[1..]));
    }
  }

  lemma OperandSpaced(o: Operand)
    requires WritableOperand(o)
    ensures WellSpaced(OperandPieces(o))
  {
    match o
    case BestEffort(l) =>
      hide Writable, LitPieces;
      SimpleTokensWritable();
      LitSpaced(l);
      SpacedBetween([Lexeme(ParseTimeT), Lexeme(LParen)], LitPieces(l), [Lexeme(RParen)]);
    case Constant(l) => LitSpaced(l);
    case Now =>
    case NowMinus(n, unit) => NowMinusSpaced(n, unit);
  }

  lemma NowMinusSpaced(n: string, unit: string)
    requires Writable(Num(n)) && Writable(Ident(unit))
    ensures WellSpaced(OperandPieces(NowMinus(n, unit)))
  {
    hide Writable;
    SimpleTokensWritable();
  }

  lemma SimpleTokensWritable()
    ensures forall t: Token :: !t.Num? && !t.Ident? && !t.Bad? ==> Writable(t)
  {
  }

  lemma LitSpaced(l: Lit)
    requires WritableLit(l)
    ensures WellSpaced(LitPieces(l))
  {
  }

  lemma CallSpaced(name: Token, col: string)
    requires (name.HasT? || name.HasAnyT?) && Writable(Ident(col))
    ensures WellSpaced([Lexeme(name), Lexeme(LParen), Lexeme(Ident(col)), Lexeme(Comma), Space])
  {
    hide Writable;
    SimpleTokensWritable();
  }

  lemma OperatorSpaced(col: string, op: Token)
    requires Writable(Ident(col)) && !op.Num? && !op.Ident? && !op.Bad?
    ensures WellSpaced([Lexeme(Ident(col)), Space, Lexeme(op), Space])
  {
    hide Writable;
    SimpleTokensWritable();
  }

  lemma OneSpaced()
    ensures WellSpaced(AtomPieces(One))
  {
    assert IsWord("1");
  }

  lemma CmpSpaced(col: string, op: CmpOp, rhs: Operand)
    requires WritableAtom(Cmp(col, op, rhs))
    ensures WellSpaced(AtomPieces(Cmp(col, op, rhs)))
  {
    hide Writable, WellSpaced, OperandPieces;
    OperandSpaced(rhs);
    OperatorSpaced(col, CmpToken(op));
    SpacedConcat([Lexeme(Ident(col)), Space, Lexeme(CmpToken(op)), Space], OperandPieces(rhs));
  }

  lemma HasSpaced(col: string, l: Lit)
    requires WritableAtom(Has(col, l))
    ensures WellSpaced(AtomPieces(Has(col, l)))
  {
    hide Writable, WellSpaced, LitPieces;
    LitSpaced(l);
    CallSpaced(HasT, col);
    CloseSpaced();
    SpacedBetween([Lexeme(HasT), Lexeme(LParen), Lexeme(Ident(col)), Lexeme(Comma), Space], LitPieces(l),
                  [Lexeme(RParen)]);
  }

  lemma AtomSpaced(a: Atom)
    requires WritableAtom(a)
    ensures WellSpaced(AtomPieces(a))
  {
    hide WellSpaced, AtomPieces, WritableAtom;
    match a
    case One => OneSpaced();
    case Cmp(col, op, rhs) => CmpSpaced(col, op, rhs);
    case Has(col, l) => HasSpaced(col, l);
    case HasAny(col, ls) => HasAnySpaced(col, ls);
    case In(col, ls) => InSpaced(col, ls);
  }

  lemma CloseSpaced()
    ensures WellSpaced([Lexeme(RParen)]) && WellSpaced([Lexeme(LParen)]) && WellSpaced([Lexeme(LBracket)])
    ensures WellSpaced([Lexeme(RBracket), Lexeme(RParen)])
  {
  }

  lemma HasAnySpaced(col: string, ls: seq<Lit>)
    requires WritableAtom(HasAny(col, ls))
    ensures WellSpaced(AtomPieces(HasAny(col, ls)))
  {
    hide Writable, WellSpaced, LitsPieces;
    var head := [Lexeme(HasAnyT), Lexeme(LParen), Lexeme(Ident(col)), Lexeme(Comma), Space];
    var end := [Lexeme(RBracket), Lexeme(RParen)];
    LitsSpaced(ls);
    CallSpaced(HasAnyT, col);
    CloseSpaced();
    SpacedConcat(head, [Lexeme(LBracket)]);
    SpacedBetween(head + [Lexeme(LBracket)], LitsPieces(ls), end);
    assert AtomPieces(HasAny(col, ls)) == head + [Lexeme(LBracket)] + LitsPieces(ls) + end;
  }

  lemma InSpaced(col: string, ls: seq<Lit>)
    requires WritableAtom(In(col, ls))
    ensures WellSpaced(AtomPieces(In(col, ls)))
  {
    hide Writable, WellSpaced, LitsPieces;
    var head := [Lexeme(Ident(col)), Space, Lexeme(InT), Space];
    LitsSpaced(ls);
    OperatorSpaced(col, InT);
    CloseSpaced();
    SpacedConcat(head, [Lexeme(LParen)]);
    SpacedBetween(head + [Lexeme(LParen)], LitsPieces(ls), [Lexeme(RParen)]);
    assert AtomPieces(In(col, ls)) == head + [Lexeme(LParen)] + LitsPieces(ls) + [Lexeme(RParen)];
  }

  ghost predicate AllSpaced(parts: seq<seq<Piece>>) {
    forall i :: 0 <= i < |parts| ==> WellSpaced(parts[i])
  }

  lemma {:induction false} JoinSpaced(parts: seq<seq<Piece>>, joiner: Token)
    requires AllSpaced(parts) && (joiner == AndT || joiner == OrT)
    ensures WellSpaced(Join(parts, joiner))
  {
    if |parts| > 1 {
      JoinSpaced(parts[1..], joiner);
      SpacedAround(parts[0], [Space, Lexeme(joiner), Space], Join(parts[1..], joiner));
    }
  }

  lemma ParenSpaced(ps: seq<Piece>)
    requires WellSpaced(ps)
    ensures WellSpaced(Paren(ps)) && WellSpaced(Negated(ps))
  {
    SpacedBetween([Lexeme(LParen)], ps, [Lexeme(RParen)]);
    SpacedConcat([Lexeme(NotT), Space], Paren(ps));
  }

  lemma {:induction false} AtomsSpaced(atoms: seq<Atom>)
    requires forall i :: 0 <= i < |atoms| ==> WritableAtom(atoms[i])
    ensures AllSpaced(AtomsPieces(atoms))
  {
    hide WellSpaced, AtomPieces, WritableAtom;
    if atoms != [] {
      AtomSpaced(atoms[0]);
      AtomsSpaced(atoms[1..]);
    }
  }

  lemma ConjunctionSpaced(parts: seq<seq<Piece>>)
    requires AllSpaced(parts)
    ensures WellSpaced(Conjunction(parts))
  {
    hide WellSpaced, AtomPieces, Paren;
    if parts == [] {
      AtomSpaced(One);
    } else {
      JoinSpaced(parts, AndT);
      ParenSpaced(Join(parts, AndT));
    }
  }

  lemma {:induction false} NegationsSpaced(parts: seq<seq<Piece>>)
    requires AllSpaced(parts)
    ensures AllSpaced(NegateAll(parts))
  {
    hide WellSpaced, Negated, Paren;
    if parts != [] {
      ParenSpaced(parts[0]);
      NegationsSpaced(parts[1..]);
    }
  }

  // -- literals of the query are writable

  lemma DigitsAreWord(s: string)
    requires s != "" && forall i :: 0 <= i < |s| ==> IsDigit(s[i]) || s[i] == '.'
    requires IsDigit(s[0])
    ensures Writable(Num(s))
  {
  }

  lemma NumeralWritable(text: string)
    requires IsNumeral(text)
    ensures WritableLit(NumberLit(text))
  {
    var body := Unsigned(text);
    var n := DigitRun(body);
    forall i | 0 <= i < |body|
      ensures IsDigit(body[i]) || body[i] == '.'
    {
      if i > n {
        assert body[i] == body[n + 1..][i - n - 1];
      }
    }
    DigitsAreWord(body);
  }

  lemma ScalarWritable(v: Scalar)
    ensures WritableLit(LitOf(v))
  {
    match v
    case BoolV(b) => DigitsAreWord(if b then "1" else "0");
    case NumberV(text) => NumeralWritable(text);
    case TextV(_) =>
  }

  lemma UnitWritable(c: char)
    ensures Writable(Ident(Unit(c)))
  {
    var u := Unit(c);
    assert |u| > 1 && 'A' <= u[0] <= 'Z';
    assert u != "AND" && u != "OR" && u != "NOT" && u != "IN" && u != "ILIKE" && u != "INTERVAL";
  }

  lemma TimeWritable(v: Scalar)
    ensures WritableOperand(TimeOperand(v))
  {
    ScalarWritable(v);
    var o := TimeOperand(v);
    if o.NowMinus? {
      var s := v.s;
      UnitWritable(s[|s| - 1]);
      forall i | 0 <= i < |o.count|
        ensures IsDigit(o.count[i])
      {
        assert o.count[i] == s[4..][i];
      }
      DigitsAreWord(o.count);
    }
  }

  lemma {:induction false} RangeWritable(col: string, bounds: seq<Bound>)
    requires Writable(Ident(col))
    ensures forall i :: 0 <= i < |RangeAtoms(col, bounds)| ==> WritableAtom(RangeAtoms(col, bounds)[i])
  {
    if bounds != [] {
      hide Writable, WritableOperand, TimeOperand, LitOf, RangeOp;
      RangeWritable(col, bounds[1..]);
      TimeWritable(bounds[0].value);
      ScalarWritable(bounds[0].value);
      ConstantWritable(LitOf(bounds[0].value));
    }
  }

  lemma ConstantWritable(l: Lit)
    requires WritableLit(l)
    ensures WritableOperand(Constant(l))
  {
  }

  lemma {:induction false} ScalarsWritable(vs: seq<Scalar>)
    ensures forall i :: 0 <= i < |LitsOf(vs)| ==> WritableLit(LitsOf(vs)[i])
  {
    LitsOfAre(vs);
    forall i | 0 <= i < |vs|
      ensures WritableLit(LitsOf(vs)[i])
    {
      ScalarWritable(vs[i]);
    }
  }

  lemma FreeColumnsWritable(t: Table)
    requires ValidTable(t)
    ensures forall i :: 0 <= i < |FreeColumns(t)| ==> Writable(Ident(FreeColumns(t)[i]))
  {
    hide Writable;
    forall col | col in t.fields.Values
      ensures Writable(Ident(col))
    {
      var f :| f in t.fields && t.fields[f] == col;
    }
  }

  lemma {:induction false} SubstringWritable(cols: seq<string>, text: string)
    requires forall i :: 0 <= i < |cols| ==> Writable(Ident(cols[i]))
    ensures forall i :: 0 <= i < |Substring(cols, text)| ==> WritableAtom(Substring(cols, text)[i])
  {
    hide Writable;
    if cols != [] {
      SubstringWritable(cols[1..], text);
    }
  }

  lemma TermSpaced(t: Table, raw: string)
    requires ValidTable(t)
    ensures WellSpaced(TermPieces(TermOf(t, raw)))
  {
    hide WellSpaced, AtomPieces, Writable, Paren, Strip, LastSegment, FreeColumns, Substring, Replace, IsNumeral;
    hide NumberLit;
    var l := TermOf(t, raw);
    FreeColumnsWritable(t);
    forall text
      ensures forall i :: 0 <= i < |Substring(FreeColumns(t), text)| ==>
          WritableAtom(Substring(FreeColumns(t), text)[i])
    {
      SubstringWritable(FreeColumns(t), text);
    }
    forall text | IsNumeral(text)
      ensures WritableLit(NumberLit(text))
    {
      NumeralWritable(text);
    }
    match l
    case Fielded(a) => AtomSpaced(a);
    case Free(choices) =>
      AtomsSpaced(choices);
      JoinSpaced(AtomsPieces(choices), OrT);
      ParenSpaced(Join(AtomsPieces(choices), OrT));
  }

  lemma {:induction false} ChainSpaced(t: Table, split: seq<string>)
    requires ValidTable(t) && |split| % 2 == 1
    ensures WellSpaced(Chain(t, split))
  {
    hide TermOf, TermPieces, ValidTable;
    TermSpaced(t, split[0]);
    if |split| > 1 {
      ChainSpaced(t, split[2..]);
      SpacedAround(TermPieces(TermOf(t, split[0])), [Space, Lexeme(JoinerToken(split[1])), Space],
          Chain(t, split[2..]));
    }
  }

  lemma {:induction false} ClauseSpaced(t: Table, q: Query)
    requires ValidTable(t) && Clause(t, q).Success?
    ensures WellSpaced(Clause(t, q).value)
    decreases q
  {
    hide WellSpaced, AtomPieces, Conjunction, Paren, Chain, Split, Strip, Writable;
    match q
    case Bool(must, mustNot, should, _) =>
      var m, n, s := Clauses(t, must).value, Clauses(t, mustNot).value, Clauses(t, should).value;
      ClausesSpaced(t, must);
      ClausesSpaced(t, mustNot);
      ClausesSpaced(t, should);
      NegationsSpaced(n);
      JoinSpaced(s, OrT);
      ParenSpaced(Join(s, OrT));
      ConjunctionSpaced(m + NegateAll(n) + Disjunction(s));
    case Range(field, bounds) =>
      RangeWritable(t.fields[field], bounds);
      AtomsSpaced(RangeAtoms(t.fields[field], bounds));
      ConjunctionSpaced(AtomsPieces(RangeAtoms(t.fields[field], bounds)));
    case Term(field, value) =>
      var col := t.fields[field];
      ScalarWritable(value);
      ConstantWritable(LitOf(value));
      AtomSpaced(if col in t.arrays then Has(col, LitOf(value)) else Cmp(col, Eq, Constant(LitOf(value))));
    case Terms(field, values) =>
      var col := t.fields[field];
      ScalarsWritable(values);
      AtomSpaced(if col in t.arrays then HasAny(col, LitsOf(values)) else In(col, LitsOf(values)));
    case Ids(values) =>
      ScalarsWritable(values);
      AlertIdWritable();
      AtomSpaced(In("alert_id", LitsOf(values)));
    case QueryString(text) =>
      AtomSpaced(One);
      var s := Strip(text, IsBlank);
      ChainSpaced(t, Split(s));
      ParenSpaced(Chain(t, Split(s)));
    case MatchAll =>
      AtomSpaced(One);
  }

  lemma AlertIdWritable()
    ensures Writable(Ident("alert_id"))
  {
    assert "alert_id"[0] == 'a' && |"alert_id"| == 8;
  }

  lemma {:induction false} ClausesSpaced(t: Table, qs: seq<Query>)
    requires ValidTable(t) && Clauses(t, qs).Success?
    ensures AllSpaced(Clauses(t, qs).value)
    decreases qs
  {
    hide WellSpaced, ValidTable;
    if qs != [] {
      ClauseSpaced(t, qs[0]);
      ClausesSpaced(t, qs[1..]);
    }
  }

  // ---------------------------------------------------------------- main theorem

  /** The compiled text, lexed and parsed, is the expected tree and nothing is left over. */
  lemma {:induction false} TextParses(t: Table, q: Query)
    requires ValidTable(t) && Mapped(t, q)
    ensures ClauseText(t, q).Success? && ParseSql(ClauseText(t, q).value) == ExprOf(t, q)
  {
    hide Reads, ReadsAnd, ParseOr, Clause, ExprOf, WellSpaced;
    TranslatesIffMapped(t, q);
    ClauseReads(t, q);
    ClauseSpaced(t, q);
    var ts := Tokens(Clause(t, q).value);
    LexText(Clause(t, q).value);
    ReadsIsReadsAnd(ts, ExprOf(t, q));
    ReadsAndIsReadsOr(ts, ExprOf(t, q));
    assert ts + [] == ts;
    assert ParseOr(ts + []) == Found(ExprOf(t, q), []);
  }

  /** Translation succeeds exactly on mapped queries; the text is an SQL expression exactly
      when no IN list is empty; and then it holds of exactly the rows the query selects. */
  lemma {:induction false} ClauseMeansQuery(t: Table, q: Query)
    requires ValidTable(t)
    ensures ClauseText(t, q).Success? <==> Mapped(t, q)
    ensures Mapped(t, q) ==> (ParseSql(ClauseText(t, q).value).Some? <==> NoEmptyList(t, q))
    ensures Mapped(t, q) && NoEmptyList(t, q) ==>
      forall row :: Holds(ParseSql(ClauseText(t, q).value).value, row) <==> Selects(t, q, row)
  {
    hide ParseSql, ClauseText, ExprOf, Holds, Selects, NoEmptyList;
    Translates(t, q);
    if Mapped(t, q) {
      TextParses(t, q);
      var nothing := Row((_, _, _) => false, (_, _) => false);
      ExprMeans(t, q, nothing);
      forall row | NoEmptyList(t, q)
        ensures Holds(ParseSql(ClauseText(t, q).value).value, row) <==> Selects(t, q, row)
      {
        ExprMeans(t, q, row);
      }
    }
  }

  lemma Translates(t: Table, q: Query)
    ensures ClauseText(t, q).Success? <==> Mapped(t, q)
  {
    TranslatesIffMapped(t, q);
  }

  lemma ColumnWritable(w: string)
    requires IsWord(w) && 'a' <= w[0] <= 'z' && ('_' in w || w == "timestamp")
    ensures Writable(Ident(w))
  {
  }

  lemma SharedColumns()
    ensures Writable(Ident("timestamp"))
    ensures Writable(Ident("agent_id"))
    ensures Writable(Ident("agent_name"))
  {
    hide Writable;
    ColumnWritable("timestamp");
    ColumnWritable("agent_id");
    ColumnWritable("agent_name");
  }

  lemma RuleColumns()
    ensures Writable(Ident("rule_id"))
    ensures Writable(Ident("rule_level"))
  {
    hide Writable;
    ColumnWritable("rule_id");
    ColumnWritable("rule_level");
  }

  lemma RuleTextColumns()
    ensures Writable(Ident("rule_description"))
    ensures Writable(Ident("rule_groups"))
  {
    hide Writable;
    ColumnWritable("rule_description");
    ColumnWritable("rule_groups");
  }

  lemma MitreColumns()
    ensures Writable(Ident("mitre_tactic"))
    ensures Writable(Ident("mitre_technique"))
  {
    hide Writable;
    ColumnWritable("mitre_tactic");
    ColumnWritable("mitre_technique");
  }

  lemma DataColumns()
    ensures Writable(Ident("data_srcip"))
    ensures Writable(Ident("data_dstuser"))
  {
    hide Writable;
    ColumnWritable("data_srcip");
    ColumnWritable("data_dstuser");
  }

  lemma SeverityColumns()
    ensures Writable(Ident("vuln_severity"))
    ensures Writable(Ident("vuln_id"))
  {
    hide Writable;
    ColumnWritable("vuln_severity");
    ColumnWritable("vuln_id");
  }

  lemma PackageColumns()
    ensures Writable(Ident("vuln_score_base"))
    ensures Writable(Ident("package_name"))
  {
    hide Writable;
    ColumnWritable("vuln_score_base");
    ColumnWritable("package_name");
  }

  /** The two tables of the product are ones the theorem applies to. */
  lemma ShippedTablesAreValid()
    ensures ValidTable(ALERTS) && ValidTable(VULNERABILITIES)
    ensures FreeColumns(ALERTS) != [] && FreeColumns(VULNERABILITIES) != []
  {
    hide Writable;
    SharedColumns();
    RuleColumns();
    RuleTextColumns();
    MitreColumns();
    DataColumns();
    SeverityColumns();
    PackageColumns();
    assert ALERTS.fields["agent.name"] == "agent_name";
    assert VULNERABILITIES.fields["agent.name"] == "agent_name";
  }

  /** An empty list of ids selects no row, but what is written for it is not an expression. */
  lemma EmptyIdsIsNotSql(t: Table)
    requires ValidTable(t)
    ensures ClauseText(t, Ids([])).Success? && ParseSql(ClauseText(t, Ids([])).value).None?
  {
    ClauseMeansQuery(t, Ids([]));
  }
}
