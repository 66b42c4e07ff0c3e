/** The query-DSL to SQL compiler: `backend/app/connectors/registry.py`, lines 52-239.

    `Clause` writes the text of a WHERE expression for an OpenSearch-style query tree.  The
    main theorem, `ClauseMeansQuery`, reads that text back with the lexer and the precedence
    parser of `SqlText` and finds an expression that holds on exactly the rows the tree
    selects. */
module QueryCompiler {
  import opened Wrappers
  import opened Texts
  import opened SqlText

  // ---------------------------------------------------------------- tables, values, queries

  /** `fields` maps dotted names to columns; `arrays` are the array-valued columns. */
  datatype Table = Table(fields: map<string, string>, arrays: set<string>)

  const ALERTS := Table(
    map["@timestamp" := "timestamp", "timestamp" := "timestamp",
        "rule.id" := "rule_id", "rule.level" := "rule_level",
        "rule.description" := "rule_description", "rule.groups" := "rule_groups",
        "rule.mitre.tactic" := "mitre_tactic", "rule.mitre.technique" := "mitre_technique",
        "agent.id" := "agent_id", "agent.name" := "agent_name",
        "data.srcip" := "data_srcip", "data.dstuser" := "data_dstuser"],
    {"rule_groups", "mitre_tactic", "mitre_technique"})

  const VULNERABILITIES := Table(
    map["@timestamp" := "timestamp", "timestamp" := "timestamp",
        "agent.id" := "agent_id", "agent.name" := "agent_name",
        "vulnerability.severity" := "vuln_severity", "vulnerability.id" := "vuln_id",
        "vulnerability.score.base" := "vuln_score_base", "package.name" := "package_name"],
    {})

  function DigitRun(s: string): (n: nat)
    ensures n <= |s|
    ensures forall i :: 0 <= i < n ==> IsDigit(s[i])
  {
    if s == "" || !IsDigit(s[0]) then 0 else 1 + DigitRun(s[1..])
  }

  predicate IsNegative(s: string) {
    s != "" && s[0] == '-'
  }

  function Unsigned(s: string): string {
    if IsNegative(s) then s[1..] else s
  }

  /** `-?\d+(\.\d+)?` */
  predicate IsNumeral(s: string) {
    var body := Unsigned(s);
    var n := DigitRun(body);
    n > 0 && (n == |body| || (body[n] == '.' && 0 < DigitRun(body[n + 1..]) == |body| - n - 1))
  }

  type Numeral = s: string | IsNumeral(s) witness "0"

  /** A scalar of the query: a Boolean, a number as it is written out, or a string. */
  datatype Scalar = BoolV(b: bool) | NumberV(text: Numeral) | TextV(s: string)

  datatype Bound = Bound(op: string, value: Scalar)

  datatype Query =
    | Bool(must: seq<Query>, mustNot: seq<Query>, should: seq<Query>, filter: seq<Query>)
    | Range(field: string, bounds: seq<Bound>)
    | Term(field: string, value: Scalar)
    | Terms(field: string, values: seq<Scalar>)
    | Ids(values: seq<Scalar>)
    | QueryString(text: string)
    | MatchAll
    | Other(op: string)

  datatype Error = Unmapped(field: string) | Unsupported(op: string)

  /** A table the compiler can write for: its columns are plain identifiers. */
  ghost predicate ValidTable(t: Table) {
    forall f :: f in t.fields ==> Writable(Ident(t.fields[f]))
  }

  // ---------------------------------------------------------------- literals and atoms

  function NumberLit(text: string): Lit {
    Number(IsNegative(text), Unsigned(text))
  }

  function LitOf(v: Scalar): Lit {
    match v
    case BoolV(b) => Number(false, if b then "1" else "0")
    case NumberV(text) => NumberLit(text)
    case TextV(s) => Quoted(s)
  }

  function LitPieces(l: Lit): seq<Piece> {
    match l
    case Number(neg, digits) => (if neg then [Lexeme(Minus)] else []) + [Lexeme(Num(digits))]
    case Quoted(s) => [Lexeme(Str(s))]
  }

  function LitsPieces(ls: seq<Lit>): seq<Piece> {
    if ls == [] then []
    else if |ls| == 1 then LitPieces(ls[0])
    else LitPieces(ls[0]) + [Lexeme(Comma), Space] + LitsPieces(ls[1..])
  }

  function Unit(c: char): string {
    match c
    case 's' => "SECOND"
    case 'm' => "MINUTE"
    case 'h' => "HOUR"
    case _ => "DAY"
  }

  /** `now-24h`, `now`, or anything else as a timestamp literal. */
  function TimeOperand(v: Scalar): Operand {
    if v.TextV? then
      var s := v.s;
      if |s| > 5 && s[..4] == "now-" && DigitRun(s[4..]) == |s| - 5 && s[|s| - 1] in {'s', 'm', 'h', 'd'}
      then NowMinus(s[4..|s| - 1], Unit(s[|s| - 1]))
      else if s == "now" then Now
      else BestEffort(LitOf(v))
    else BestEffort(LitOf(v))
  }

  function OperandPieces(o: Operand): seq<Piece> {
    match o
    case Constant(l) => LitPieces(l)
    case Now => [Lexeme(NowT), Lexeme(LParen), Lexeme(RParen)]
    case NowMinus(n, unit) =>
      [Lexeme(NowT), Lexeme(LParen), Lexeme(RParen), Space, Lexeme(Minus), Space, Lexeme(IntervalT), Space,
       Lexeme(Num(n)), Space, Lexeme(Ident(unit))]
    case BestEffort(l) => [Lexeme(ParseTimeT), Lexeme(LParen)] + LitPieces(l) + [Lexeme(RParen)]
  }

  function CmpToken(op: CmpOp): Token {
    match op
    case Eq => EqT
    case Ge => GeT
    case Gt => GtT
    case Le => LeT
    case Lt => LtT
    case Ilike => IlikeT
  }

  function AtomPieces(a: Atom): seq<Piece> {
    match a
    case One => [Lexeme(Num("1"))]
    case Cmp(col, op, rhs) => [Lexeme(Ident(col)), Space, Lexeme(CmpToken(op)), Space] + OperandPieces(rhs)
    case Has(col, l) =>
      [Lexeme(HasT), Lexeme(LParen), Lexeme(Ident(col)), Lexeme(Comma), Space] + LitPieces(l) + [Lexeme(RParen)]
    case HasAny(col, ls) =>
      [Lexeme(HasAnyT), Lexeme(LParen), Lexeme(Ident(col)), Lexeme(Comma), Space, Lexeme(LBracket)] + LitsPieces(ls)
      + [Lexeme(RBracket), Lexeme(RParen)]
    case In(col, ls) =>
      [Lexeme(Ident(col)), Space, Lexeme(InT), Space, Lexeme(LParen)] + LitsPieces(ls) + [Lexeme(RParen)]
  }

  // ---------------------------------------------------------------- joining

  function Join(parts: seq<seq<Piece>>, joiner: Token): seq<Piece> {
    if parts == [] then []
    else if |parts| == 1 then parts[0]
    else parts[0] + [Space, Lexeme(joiner), Space] + Join(parts[1..], joiner)
  }

  function Paren(ps: seq<Piece>): seq<Piece> {
    [Lexeme(LParen)] + ps + [Lexeme(RParen)]
  }

  function Negated(ps: seq<Piece>): seq<Piece> {
    [Lexeme(NotT), Space] + Paren(ps)
  }

  // ---------------------------------------------------------------- query strings

  /** White space to the query translator: four separator characters more than elsewhere. */
  predicate IsBlank(c: char) {
    IsSpace(c) || '\U{1c}' <= c <= '\U{1f}'
  }

  function BlankRun(s: string): (n: nat)
    ensures n <= |s|
    ensures s != "" && IsBlank(s[0]) ==> n > 0
  {
    if s == "" || !IsBlank(s[0]) then 0 else 1 + BlankRun(s[1..])
  }

  /** A joiner with its blanks, from position `start` up to `end`. */
  datatype Separator = Separator(start: nat, joiner: string, end: nat)

  /** Blanks, a joiner, blanks, at position i. */
  function SeparatorAt(s: string, i: nat): (r: Option<Separator>)
    requires i <= |s|
    ensures r.Some? ==> i == r.value.start < r.value.end <= |s|
  {
    var w := i + BlankRun(s[i..]);
    var joiner := if w + 3 <= |s| && s[w..w + 3] == "AND" then "AND"
                  else if w + 2 <= |s| && s[w..w + 2] == "OR" then "OR" else "";
    var k := w + |joiner|;
    if w == i || joiner == "" || BlankRun(s[k..]) == 0 then None
    else Some(Separator(i, joiner, k + BlankRun(s[k..])))
  }

  /** The leftmost separator at or after i. */
  function FindSeparator(s: string, i: nat): (r: Option<Separator>)
    requires i <= |s|
    ensures r.Some? ==> r.value.start < r.value.end <= |s|
    decreases |s| - i
  {
    if i == |s| || SeparatorAt(s, i).Some? then SeparatorAt(s, i) else FindSeparator(s, i + 1)
  }

  /** The terms and the joiners between them, alternating. */
  function Split(s: string): (r: seq<string>)
    ensures |r| % 2 == 1
    decreases |s|
  {
    match FindSeparator(s, 0)
    case None => [s]
    case Some(sep) => [s[..sep.start], sep.joiner] + Split(s[sep.end..])
  }

  /** Position of c in s, or |s|. */
  function IndexOf(s: string, c: char): (n: nat)
    ensures n <= |s| && c !in s[..n] && (n < |s| ==> s[n] == c)
  {
    if s == "" || s[0] == c then 0
    else
      var n := IndexOf(s[1..], c);
      assert s[..n + 1] == [s[0]] + s[1..][..n];
      n + 1
  }

  function LastSegment(s: string): string
    decreases |s|
  {
    var n := IndexOf(s, ':');
    if n == |s| then s else LastSegment(s[n + 1..])
  }

  datatype Compare = Compare(op: Option<CmpOp>, value: string)

  /** An optional comparison sign, then a value that is not empty. */
  function SplitCompare(body: string): Compare {
    if |body| > 2 && body[..2] == ">=" then Compare(Some(Ge), body[2..])
    else if |body| > 2 && body[..2] == "<=" then Compare(Some(Le), body[2..])
    else if |body| > 1 && body[0] == '>' then Compare(Some(Gt), body[1..])
    else if |body| > 1 && body[0] == '<' then Compare(Some(Lt), body[1..])
    else Compare(None, body)
  }

  function FreeColumns(t: Table): seq<string> {
    (if "rule_description" in t.fields.Values then ["rule_description"] else [])
    + (if "agent_name" in t.fields.Values then ["agent_name"] else [])
    + (if "data_srcip" in t.fields.Values then ["data_srcip"] else [])
    + (if "vuln_id" in t.fields.Values then ["vuln_id"] else [])
  }

  function Substring(cols: seq<string>, text: string): seq<Atom> {
    if cols == [] then []
    else [Cmp(cols[0], Ilike, Constant(Quoted("%" + text + "%")))] + Substring(cols[1..], text)
  }

  /** `[\w.@]+` */
  predicate IsFieldName(s: string) {
    s != "" && forall i :: 0 <= i < |s| ==> IsWordChar(s[i]) || s[i] == '@'
  }

  /** A term is one comparison on a mapped field, or a substring search over some columns. */
  datatype LTerm = Fielded(a: Atom) | Free(choices: seq<Atom>)

  function TermOf(t: Table, raw: string): LTerm {
    var term := Strip(raw, IsBlank);
    var n := IndexOf(term, ':');
    if n < |term| - 1 && IsFieldName(term[..n]) && term[..n] in t.fields && '\n' !in term[n + 1..] then
      var col := t.fields[term[..n]];
      var c := SplitCompare(term[n + 1..]);
      var val := Strip(Strip(c.value, IsBlank), ch => ch == '"');
      if c.op.Some? then Fielded(Cmp(col, c.op.value, Constant(if IsNumeral(val) then NumberLit(val) else Quoted(val))))
      else if '*' in val then Fielded(Cmp(col, Ilike, Constant(Quoted(Replace(val, '*', "%")))))
      else if col in t.arrays then Fielded(Has(col, Quoted(val)))
      else Fielded(Cmp(col, Eq, Constant(Quoted(val))))
    else
      Free(Substring(FreeColumns(t), Strip(LastSegment(term), ch => ch == '"' || ch == '*')))
  }

  function TermPieces(l: LTerm): seq<Piece> {
    match l
    case Fielded(a) => AtomPieces(a)
    case Free(choices) => Paren(Join(AtomsPieces(choices), OrT))
  }

  function AtomsPieces(atoms: seq<Atom>): seq<seq<Piece>> {
    if atoms == [] then [] else [AtomPieces(atoms[0])] + AtomsPieces(atoms[1..])
  }

  function JoinerToken(joiner: string): Token {
    if joiner == "OR" then OrT else AndT
  }

  /** The flat chain of terms and joiners, from the split of a query string. */
  function Chain(t: Table, split: seq<string>): seq<Piece>
    requires |split| % 2 == 1
  {
    if |split| == 1 then TermPieces(TermOf(t, split[0]))
    else TermPieces(TermOf(t, split[0])) + [Space, Lexeme(JoinerToken(split[1])), Space] + Chain(t, split[2..])
  }

  function Lucene(t: Table, q: string): seq<Piece> {
    var s := Strip(q, IsBlank);
    if s == "" then AtomPieces(One) else Paren(Chain(t, Split(s)))
  }

  lemma {:induction false} ChainSnoc(t: Table, split: seq<string>, joiner: string, term: string)
    requires |split| % 2 == 1
    ensures |split + [joiner, term]| % 2 == 1
    ensures Chain(t, split + [joiner, term])
         == Chain(t, split) + [Space, Lexeme(JoinerToken(joiner)), Space] + TermPieces(TermOf(t, term))
  {
    hide TermOf, TermPieces, JoinerToken;
    var longer := split + [joiner, term];
    if |split| == 1 {
      assert longer[2..] == [term];
    } else {
      assert longer[2..] == split[2..] + [joiner, term];
      ChainSnoc(t, split[2..], joiner, term);
      Reassociate(TermPieces(TermOf(t, split[0])), [Space, Lexeme(JoinerToken(split[1])), Space], Chain(t, split[2..]),
                  [Space, Lexeme(JoinerToken(joiner)), Space], TermPieces(TermOf(t, term)));
    }
  }

  lemma Reassociate<T>(a: seq<T>, b: seq<T>, c: seq<T>, d: seq<T>, e: seq<T>)
    ensures a + b + (c + d + e) == a + b + c + d + e
  {
  }

  /** `_lucene`, with its loop over the split tokens. */
  method LuceneLoop(t: Table, q: string) returns (ps: seq<Piece>)
    ensures ps == Lucene(t, q)
  {
    hide TermOf, TermPieces, Split, Strip;
    var s := Strip(q, IsBlank);
    if s == "" {
      return [Lexeme(Num("1"))];
    }
    var tokens := Split(s);
    var parts := TermPieces(TermOf(t, tokens[0]));
    var i := 1;
    while i < |tokens| - 1
      invariant 1 <= i <= |tokens| && i % 2 == 1
      invariant parts == Chain(t, tokens[..i])
    {
      var joiner := if tokens[i] == "OR" then OrT else AndT;
      ChainSnoc(t, tokens[..i], tokens[i], tokens[i + 1]);
      assert tokens[..i] + [tokens[i], tokens[i + 1]] == tokens[..i + 2];
      parts := parts + [Space, Lexeme(joiner), Space];
      parts := parts + TermPieces(TermOf(t, tokens[i + 1]));
      i := i + 2;
    }
    assert tokens[..i] == tokens;
    ps := [Lexeme(LParen)] + parts + [Lexeme(RParen)];
  }

  // ---------------------------------------------------------------- clauses

  function RangeOp(op: string): Option<CmpOp> {
    if op == "gte" then Some(Ge)
    else if op == "gt" then Some(Gt)
    else if op == "lte" then Some(Le)
    else if op == "lt" then Some(Lt)
    else None
  }

  function BoundOperand(col: string, v: Scalar): Operand {
    if col == "timestamp" then TimeOperand(v) else Constant(LitOf(v))
  }

  /** The comparisons of a range; bounds with another key are skipped. */
  function RangeAtoms(col: string, bounds: seq<Bound>): seq<Atom> {
    if bounds == [] then []
    else
      (if RangeOp(bounds[0].op).None? then []
       else [Cmp(col, RangeOp(bounds[0].op).value, BoundOperand(col, bounds[0].value))])
      + RangeAtoms(col, bounds[1..])
  }

  function LitsOf(vs: seq<Scalar>): seq<Lit> {
    if vs == [] then [] else [LitOf(vs[0])] + LitsOf(vs[1..])
  }

  function Column(t: Table, field: string): Result<string, Error> {
    if field in t.fields then Success(t.fields[field]) else Failure(Unmapped(field))
  }

  function Conjunction(parts: seq<seq<Piece>>): seq<Piece> {
    if parts == [] then AtomPieces(One) else Paren(Join(parts, AndT))
  }

  function NegateAll(parts: seq<seq<Piece>>): seq<seq<Piece>> {
    if parts == [] then [] else [Negated(parts[0])] + NegateAll(parts[1..])
  }

  function Disjunction(parts: seq<seq<Piece>>): seq<seq<Piece>> {
    if parts == [] then [] else [Paren(Join(parts, OrT))]
  }

  /** `_clause`: the text of a query tree, or the error that stops the translation. */
  function Clause(t: Table, q: Query): Result<seq<Piece>, Error>
    decreases q
  {
    match q
    case Bool(must, mustNot, should, _) =>
      var m :- Clauses(t, must);
      var n :- Clauses(t, mustNot);
      var s :- Clauses(t, should);
      Success(Conjunction(m + NegateAll(n) + Disjunction(s)))
    case Range(field, bounds) =>
      var col :- Column(t, field);
      Success(Conjunction(AtomsPieces(RangeAtoms(col, bounds))))
    case Term(field, value) =>
      var col :- Column(t, field);
      Success(AtomPieces(if col in t.arrays then Has(col, LitOf(value)) else Cmp(col, Eq, Constant(LitOf(value)))))
    case Terms(field, values) =>
      var col :- Column(t, field);
      Success(AtomPieces(if col in t.arrays then HasAny(col, LitsOf(values)) else In(col, LitsOf(values))))
    case Ids(values) => Success(AtomPieces(In("alert_id", LitsOf(values))))
    case QueryString(text) => Success(Lucene(t, text))
    case MatchAll => Success(AtomPieces(One))
    case Other(op) => Failure(Unsupported(op))
  }

  function Clauses(t: Table, qs: seq<Query>): Result<seq<seq<Piece>>, Error>
    decreases qs
  {
    if qs == [] then Success([])
    else
      var first :- Clause(t, qs[0]);
      var rest :- Clauses(t, qs[1..]);
      Success([first] + rest)
  }

  /** The SQL text itself. */
  function ClauseText(t: Table, q: Query): Result<string, Error> {
    var ps :- Clause(t, q);
    Success(Text(ps))
  }

  // ---------------------------------------------------------------- what a query means

  ghost predicate LTermHolds(l: LTerm, row: Row) {
    match l
    case Fielded(a) => AtomHolds(a, row)
    case Free(choices) => exists a :: a in choices && AtomHolds(a, row)
  }

  /** The maximal runs of terms not separated by OR. */
  function Groups(split: seq<string>): (gs: seq<seq<string>>)
    requires |split| % 2 == 1
    ensures |gs| > 0 && forall i :: 0 <= i < |gs| ==> gs[i] != []
  {
    if |split| == 1 then [[split[0]]]
    else
      var gs := Groups(split[2..]);
      if split[1] == "OR" then [[split[0]]] + gs else [[split[0]] + gs[0]] + gs[1..]
  }

  ghost predicate QueryStringHolds(t: Table, text: string, row: Row) {
    var s := Strip(text, IsBlank);
    s == "" || exists g :: g in Groups(Split(s)) && forall term :: term in g ==> LTermHolds(TermOf(t, term), row)
  }

  /** The rows a query tree selects: all of `must`, none of `must_not`, and one of `should`
      if there are any; `filter` is ignored. */
  ghost predicate Selects(t: Table, q: Query, row: Row)
    requires Mapped(t, q)
    decreases q
  {
    match q
    case Bool(must, mustNot, should, _) =>
      && (forall i :: 0 <= i < |must| ==> Selects(t, must[i], row))
      && (forall i :: 0 <= i < |mustNot| ==> !Selects(t, mustNot[i], row))
      && (should != [] ==> exists i :: 0 <= i < |should| && Selects(t, should[i], row))
    case Range(field, bounds) =>
      forall b :: b in bounds && RangeOp(b.op).Some? ==>
        row.cmp(t.fields[field], RangeOp(b.op).value, BoundOperand(t.fields[field], b.value))
    case Term(field, value) => ValueHolds(t, t.fields[field], value, row)
    case Terms(field, values) => exists v :: v in values && ValueHolds(t, t.fields[field], v, row)
    case Ids(values) => exists v :: v in values && row.cmp("alert_id", Eq, Constant(LitOf(v)))
    case QueryString(text) => QueryStringHolds(t, text, row)
    case MatchAll => true
    case Other(_) => false
  }

  ghost predicate ValueHolds(t: Table, col: string, v: Scalar, row: Row) {
    if col in t.arrays then row.has(col, LitOf(v)) else row.cmp(col, Eq, Constant(LitOf(v)))
  }

  /** Every field is mapped and every node is of a kind the compiler knows. */
  ghost predicate Mapped(t: Table, q: Query)
    decreases q
  {
    match q
    case Bool(must, mustNot, should, _) =>
      && (forall i :: 0 <= i < |must| ==> Mapped(t, must[i]))
      && (forall i :: 0 <= i < |mustNot| ==> Mapped(t, mustNot[i]))
      && (forall i :: 0 <= i < |should| ==> Mapped(t, should[i]))
    case Range(field, _) => field in t.fields
    case Term(field, _) => field in t.fields
    case Terms(field, _) => field in t.fields
    case Other(_) => false
    case _ => true
  }

  /** No empty `ids` list, no empty `terms` list on a scalar column, and no free-text term on
      a table without descriptive columns. */
  ghost predicate NoEmptyList(t: Table, q: Query)
    requires Mapped(t, q)
    decreases q
  {
    match q
    case Bool(must, mustNot, should, _) =>
      && (forall i :: 0 <= i < |must| ==> NoEmptyList(t, must[i]))
      && (forall i :: 0 <= i < |mustNot| ==> NoEmptyList(t, mustNot[i]))
      && (forall i :: 0 <= i < |should| ==> NoEmptyList(t, should[i]))
    case Terms(field, values) => t.fields[field] in t.arrays || values != []
    case Ids(values) => values != []
    case QueryString(text) =>
      FreeColumns(t) != [] || Strip(text, IsBlank) == ""
      || forall g, term :: g in Groups(Split(Strip(text, IsBlank))) && term in g ==> TermOf(t, term).Fielded?
    case _ => true
  }
}
