/** The condition language of Sigma rules: `engine/sigma.go`, lines 300-441.

    A condition such as `(a or b) and not 1 of filter*` is tokenised, then read by a
    recursive-descent parser with a moving cursor.  The parser is specified by the
    functions `OrFrom`, `AndFrom`, `NotFrom` and `AtomFrom`, which are proved to decide
    exactly the layered grammar `OrSpan`/`AndSpan`/`NotSpan`/`AtomSpan`. */
module SigmaCondition {
  import opened Texts

  datatype Node =
    | Sel(name: string)
    | Not(c: Node)
    | And(l: Node, r: Node)
    | Or(l: Node, r: Node)
    | Of(quant: string, glob: string)

  datatype Failure = MissingParen | ExpectedOf | UnexpectedEnd | UnexpectedToken

  datatype Parsed = Ok(node: Node, pos: nat) | Err(error: Failure)

  /** `Panics` is the out-of-range index the code runs into when the cursor has moved
      past the end of a condition that reads as complete. */
  datatype Outcome = Tree(node: Node) | Rejected(error: Failure) | Panics

  // ---------------------------------------------------------------- token classes

  function LowerChar(c: char): char {
    if 'A' <= c <= 'Z' then (c as int + 32) as char else c
  }

  function ToLower(s: string): (r: string)
    ensures |r| == |s|
  {
    seq(|s|, i requires 0 <= i < |s| => LowerChar(s[i]))
  }

  /** Equality up to ASCII case; no other letter folds to one of the keywords' letters. */
  predicate Folds(t: string, keyword: string) {
    ToLower(t) == keyword
  }

  predicate AllDigits(s: string) {
    forall i :: 0 <= i < |s| ==> '0' <= s[i] <= '9'
  }

  function Value(s: string): nat
    requires AllDigits(s)
  {
    if s == "" then 0 else 10 * Value(s[..|s| - 1]) + (s[|s| - 1] as int - '0' as int)
  }

  predicate Signed(t: string) {
    t != "" && (t[0] == '+' || t[0] == '-')
  }

  function Magnitude(t: string): string {
    if Signed(t) then t[1..] else t
  }

  /** The strings a 64-bit decimal conversion accepts. */
  predicate IsInt(t: string) {
    var body := Magnitude(t);
    body != "" && AllDigits(body) &&
    Value(body) <= if Signed(t) && t[0] == '-' then 0x8000_0000_0000_0000 else 0x7fff_ffff_ffff_ffff
  }

  function IntValue(t: string): int
    requires IsInt(t)
  {
    if t[0] == '-' then 0 - Value(Magnitude(t)) as int else Value(Magnitude(t))
  }

  predicate IsQuant(t: string) {
    IsInt(t) || Folds(t, "all") || Folds(t, "any")
  }

  /** Any token an atom reads as a selection name: keywords in operand position included. */
  predicate IsName(t: string) {
    t != "" && t != "(" && !IsQuant(t) && !Folds(t, "not")
  }

  // ---------------------------------------------------------------- tokeniser

  function PadChar(c: char): string {
    if c == '(' then " ( " else if c == ')' then " ) " else [c]
  }

  /** Sets every parenthesis apart with spaces. */
  function Pad(s: string): string {
    if s == "" then ""
    else PadChar(s[0]) + Pad(s[1..])
  }

  function WordLength(s: string): (n: nat)
    ensures n <= |s|
    ensures s != "" && !IsSpace(s[0]) ==> n > 0
  {
    if s == "" || IsSpace(s[0]) then 0 else 1 + WordLength(s[1..])
  }

  /** The maximal space-free pieces, in order. */
  function Fields(s: string): seq<string> {
    if s == "" then []
    else if IsSpace(s[0]) then Fields(s[1..])
    else [s[..WordLength(s)]] + Fields(s[WordLength(s)..])
  }

  function Tokenize(s: string): seq<string> {
    Fields(Pad(s))
  }

  // ---------------------------------------------------------------- parser, as functions

  function Peek(toks: seq<string>, pos: nat): string {
    if pos < |toks| then toks[pos] else ""
  }

  function OrFrom(toks: seq<string>, pos: nat): (r: Parsed)
    requires pos <= |toks| + 1
    ensures r.Ok? ==> pos < r.pos <= |toks| + 1
    decreases |toks| + 1 - pos, 3
  {
    match AndFrom(toks, pos)
    case Err(e) => Err(e)
    case Ok(left, p) => OrLoop(toks, left, p)
  }

  function OrLoop(toks: seq<string>, left: Node, pos: nat): (r: Parsed)
    requires pos <= |toks| + 1
    ensures r.Ok? ==> pos <= r.pos <= |toks| + 1
    decreases |toks| + 1 - pos, 4
  {
    if !Folds(Peek(toks, pos), "or") then Ok(left, pos)
    else
      match AndFrom(toks, pos + 1)
      case Err(e) => Err(e)
      case Ok(right, p) => OrLoop(toks, Or(left, right), p)
  }

  function AndFrom(toks: seq<string>, pos: nat): (r: Parsed)
    requires pos <= |toks| + 1
    ensures r.Ok? ==> pos < r.pos <= |toks| + 1
    decreases |toks| + 1 - pos, 2
  {
    match NotFrom(toks, pos)
    case Err(e) => Err(e)
    case Ok(left, p) => AndLoop(toks, left, p)
  }

  function AndLoop(toks: seq<string>, left: Node, pos: nat): (r: Parsed)
    requires pos <= |toks| + 1
    ensures r.Ok? ==> pos <= r.pos <= |toks| + 1
    decreases |toks| + 1 - pos, 4
  {
    if !Folds(Peek(toks, pos), "and") then Ok(left, pos)
    else
      match NotFrom(toks, pos + 1)
      case Err(e) => Err(e)
      case Ok(right, p) => AndLoop(toks, And(left, right), p)
  }

  function NotFrom(toks: seq<string>, pos: nat): (r: Parsed)
    requires pos <= |toks| + 1
    ensures r.Ok? ==> pos < r.pos <= |toks| + 1
    decreases |toks| + 1 - pos, 1
  {
    if Folds(Peek(toks, pos), "not") then
      match NotFrom(toks, pos + 1)
      case Err(e) => Err(e)
      case Ok(c, p) => Ok(Not(c), p)
    else AtomFrom(toks, pos)
  }

  function AtomFrom(toks: seq<string>, pos: nat): (r: Parsed)
    requires pos <= |toks| + 1
    ensures r.Ok? ==> pos < r.pos <= |toks| + 1
    decreases |toks| + 1 - pos, 0
  {
    var t := Peek(toks, pos);
    if t == "(" then
      match OrFrom(toks, pos + 1)
      case Err(e) => Err(e)
      case Ok(n, p) => if Peek(toks, p) == ")" then Ok(n, p + 1) else Err(MissingParen)
    else if IsQuant(t) then
      if Folds(Peek(toks, pos + 1), "of") then Ok(Of(ToLower(t), Peek(toks, pos + 2)), pos + 3)
      else Err(ExpectedOf)
    else if t == "" then Err(UnexpectedEnd)
    else Ok(Sel(t), pos + 1)
  }

  function ParseTokens(toks: seq<string>): Outcome {
    match OrFrom(toks, 0)
    case Err(e) => Rejected(e)
    case Ok(n, p) =>
      if p == |toks| then Tree(n) else if p < |toks| then Rejected(UnexpectedToken) else Panics
  }

  // ---------------------------------------------------------------- parser, with its cursor

  class CondParser {
    const toks: seq<string>
    var pos: nat

    constructor (toks: seq<string>)
      ensures this.toks == toks && pos == 0
    {
      this.toks := toks;
      pos := 0;
    }

    method Next() returns (t: string)
      modifies this
      ensures t == Peek(toks, old(pos)) && pos == old(pos) + 1
    {
      t := Peek(toks, pos);
      pos := pos + 1;
    }

    /** What the methods below promise: they return what the functions say, and on success
        leave the cursor where the functions leave it. */
    predicate Reads(r: Parsed, spec: Parsed)
      reads this
    {
      r == spec && (r.Ok? ==> pos == r.pos)
    }

    method ParseOr() returns (r: Parsed)
      requires pos <= |toks| + 1
      modifies this
      ensures Reads(r, OrFrom(toks, old(pos)))
      decreases |toks| + 1 - pos, 3
    {
      ghost var start := pos;
      r := ParseAnd();
      if r.Err? {
        return;
      }
      var left := r.node;
      while Folds(Peek(toks, pos), "or")
        invariant start < pos <= |toks| + 1
        invariant OrFrom(toks, start) == OrLoop(toks, left, pos)
        decreases |toks| + 1 - pos
      {
        var _ := Next();
        r := ParseAnd();
        if r.Err? {
          return;
        }
        left := Or(left, r.node);
      }
      r := Ok(left, pos);
    }

    method ParseAnd() returns (r: Parsed)
      requires pos <= |toks| + 1
      modifies this
      ensures Reads(r, AndFrom(toks, old(pos)))
      decreases |toks| + 1 - pos, 2
    {
      ghost var start := pos;
      r := ParseNot();
      if r.Err? {
        return;
      }
      var left := r.node;
      while Folds(Peek(toks, pos), "and")
        invariant start < pos <= |toks| + 1
        invariant AndFrom(toks, start) == AndLoop(toks, left, pos)
        decreases |toks| + 1 - pos
      {
        var _ := Next();
        r := ParseNot();
        if r.Err? {
          return;
        }
        left := And(left, r.node);
      }
      r := Ok(left, pos);
    }

    method ParseNot() returns (r: Parsed)
      requires pos <= |toks| + 1
      modifies this
      ensures Reads(r, NotFrom(toks, old(pos)))
      decreases |toks| + 1 - pos, 1
    {
      if Folds(Peek(toks, pos), "not") {
        var _ := Next();
        r := ParseNot();
        if r.Ok? {
          r := Ok(Not(r.node), r.pos);
        }
      } else {
        r := ParseAtom();
      }
    }

    method ParseAtom() returns (r: Parsed)
      requires pos <= |toks| + 1
      modifies this
      ensures Reads(r, AtomFrom(toks, old(pos)))
      decreases |toks| + 1 - pos, 0
    {
      var t := Peek(toks, pos);
      if t == "(" {
        var _ := Next();
        r := ParseOr();
        if r.Err? {
          return;
        }
        var close := Next();
        r := if close == ")" then Ok(r.node, pos) else Err(MissingParen);
      } else if IsQuant(t) {
        var quant := Next();
        quant := ToLower(quant);
        if !Folds(Peek(toks, pos), "of") {
          return Err(ExpectedOf);
        }
        var _ := Next();
        var glob := Next();
        r := Ok(Of(quant, glob), pos);
      } else if t == "" {
        r := Err(UnexpectedEnd);
      } else {
        var name := Next();
        r := Ok(Sel(name), pos);
      }
    }
  }

  method ParseCondition(s: string) returns (o: Outcome)
    ensures o == ParseTokens(Tokenize(s))
  {
    var p := new CondParser(Tokenize(s));
    var r := p.ParseOr();
    if r.Err? {
      return Rejected(r.error);
    }
    o := if p.pos == |p.toks| then Tree(r.node)
         else if p.pos < |p.toks| then Rejected(UnexpectedToken)
         else Panics;
  }

  // ---------------------------------------------------------------- the grammar

  /* or   ::= and | or "or" and
     and  ::= not | and "and" not
     not  ::= atom | "not" not
     atom ::= NAME | QUANT "of" ANY | "(" or ")"
     `XSpan(toks, i, j, n)`: the tokens from i up to j derive the tree n from x. */

  ghost predicate OrSpan(toks: seq<string>, i: nat, j: nat, n: Node)
    requires i <= j <= |toks|
    decreases j - i, 3
  {
    || AndSpan(toks, i, j, n)
    || (n.Or? && exists k ::
          i <= k < j && OrSpan(toks, i, k, n.l) && Folds(toks[k], "or") && AndSpan(toks, k + 1, j, n.r))
  }

  ghost predicate AndSpan(toks: seq<string>, i: nat, j: nat, n: Node)
    requires i <= j <= |toks|
    decreases j - i, 2
  {
    || NotSpan(toks, i, j, n)
    || (n.And? && exists k ::
          i <= k < j && AndSpan(toks, i, k, n.l) && Folds(toks[k], "and") && NotSpan(toks, k + 1, j, n.r))
  }

  ghost predicate NotSpan(toks: seq<string>, i: nat, j: nat, n: Node)
    requires i <= j <= |toks|
    decreases j - i, 1
  {
    || AtomSpan(toks, i, j, n)
    || (n.Not? && i < j && Folds(toks[i], "not") && NotSpan(toks, i + 1, j, n.c))
  }

  ghost predicate AtomSpan(toks: seq<string>, i: nat, j: nat, n: Node)
    requires i <= j <= |toks|
    decreases j - i, 0
  {
    || (n.Sel? && j == i + 1 && IsName(toks[i]) && n.name == toks[i])
    || (n.Of? && j == i + 3 && IsQuant(toks[i]) && Folds(toks[i + 1], "of") && n == Of(ToLower(toks[i]), toks[i + 2]))
    || (i + 2 <= j && toks[i] == "(" && toks[j - 1] == ")" && OrSpan(toks, i + 1, j - 1, n))
  }

  ghost predicate Derivable(toks: seq<string>) {
    exists n :: OrSpan(toks, 0, |toks|, n)
  }

  // ---------------------------------------------------------------- soundness

  lemma {:induction false} OrFromSound(toks: seq<string>, pos: nat)
    requires pos <= |toks| + 1
    ensures var r := OrFrom(toks, pos); r.Ok? && r.pos <= |toks| ==> OrSpan(toks, pos, r.pos, r.node)
    decreases |toks| + 1 - pos, 3
  {
    AndFromSound(toks, pos);
    var a := AndFrom(toks, pos);
    if a.Ok? && a.pos <= |toks| {
      OrLoopSound(toks, pos, a.node, a.pos);
    }
  }

  lemma {:induction false} OrLoopSound(toks: seq<string>, start: nat, left: Node, pos: nat)
    requires start <= pos <= |toks| && OrSpan(toks, start, pos, left)
    ensures var r := OrLoop(toks, left, pos); r.Ok? && r.pos <= |toks| ==> OrSpan(toks, start, r.pos, r.node)
    decreases |toks| + 1 - pos, 4
  {
    if Folds(Peek(toks, pos), "or") {
      AndFromSound(toks, pos + 1);
      var a := AndFrom(toks, pos + 1);
      if a.Ok? && a.pos <= |toks| {
        OrLoopSound(toks, start, Or(left, a.node), a.pos);
      }
    }
  }

  lemma {:induction false} AndFromSound(toks: seq<string>, pos: nat)
    requires pos <= |toks| + 1
    ensures var r := AndFrom(toks, pos); r.Ok? && r.pos <= |toks| ==> AndSpan(toks, pos, r.pos, r.node)
    decreases |toks| + 1 - pos, 2
  {
    NotFromSound(toks, pos);
    var a := NotFrom(toks, pos);
    if a.Ok? && a.pos <= |toks| {
      AndLoopSound(toks, pos, a.node, a.pos);
    }
  }

  lemma {:induction false} AndLoopSound(toks: seq<string>, start: nat, left: Node, pos: nat)
    requires start <= pos <= |toks| && AndSpan(toks, start, pos, left)
    ensures var r := AndLoop(toks, left, pos); r.Ok? && r.pos <= |toks| ==> AndSpan(toks, start, r.pos, r.node)
    decreases |toks| + 1 - pos, 4
  {
    if Folds(Peek(toks, pos), "and") {
      NotFromSound(toks, pos + 1);
      var a := NotFrom(toks, pos + 1);
      if a.Ok? && a.pos <= |toks| {
        AndLoopSound(toks, start, And(left, a.node), a.pos);
      }
    }
  }

  lemma {:induction false} NotFromSound(toks: seq<string>, pos: nat)
    requires pos <= |toks| + 1
    ensures var r := NotFrom(toks, pos); r.Ok? && r.pos <= |toks| ==> NotSpan(toks, pos, r.pos, r.node)
    decreases |toks| + 1 - pos, 1
  {
    if Folds(Peek(toks, pos), "not") {
      NotFromSound(toks, pos + 1);
    } else {
      AtomFromSound(toks, pos);
    }
  }

  lemma {:induction false} AtomFromSound(toks: seq<string>, pos: nat)
    requires pos <= |toks| + 1
    requires !Folds(Peek(toks, pos), "not")
    ensures var r := AtomFrom(toks, pos); r.Ok? && r.pos <= |toks| ==> AtomSpan(toks, pos, r.pos, r.node)
    decreases |toks| + 1 - pos, 0
  {
    if Peek(toks, pos) == "(" {
      OrFromSound(toks, pos + 1);
    }
  }

  // ---------------------------------------------------------------- completeness

  lemma {:induction false} OrFromComplete(toks: seq<string>, i: nat, j: nat, n: Node)
    requires i <= j <= |toks| && OrSpan(toks, i, j, n) && !Folds(Peek(toks, j), "and")
    ensures OrFrom(toks, i) == OrLoop(toks, n, j)
    decreases j - i, 3
  {
    if AndSpan(toks, i, j, n) {
      AndFromComplete(toks, i, j, n);
    } else {
      var k :| i <= k < j && OrSpan(toks, i, k, n.l) && Folds(toks[k], "or") && AndSpan(toks, k + 1, j, n.r);
      OrFromComplete(toks, i, k, n.l);
      AndFromComplete(toks, k + 1, j, n.r);
    }
  }

  lemma {:induction false} AndFromComplete(toks: seq<string>, i: nat, j: nat, n: Node)
    requires i <= j <= |toks| && AndSpan(toks, i, j, n)
    ensures AndFrom(toks, i) == AndLoop(toks, n, j)
    decreases j - i, 2
  {
    if NotSpan(toks, i, j, n) {
      NotFromComplete(toks, i, j, n);
    } else {
      var k :| i <= k < j && AndSpan(toks, i, k, n.l) && Folds(toks[k], "and") && NotSpan(toks, k + 1, j, n.r);
      AndFromComplete(toks, i, k, n.l);
      NotFromComplete(toks, k + 1, j, n.r);
    }
  }

  lemma {:induction false} NotFromComplete(toks: seq<string>, i: nat, j: nat, n: Node)
    requires i <= j <= |toks| && NotSpan(toks, i, j, n)
    ensures NotFrom(toks, i) == Ok(n, j)
    decreases j - i, 1
  {
    if AtomSpan(toks, i, j, n) {
      AtomFromComplete(toks, i, j, n);
    } else {
      NotFromComplete(toks, i + 1, j, n.c);
    }
  }

  lemma KeywordsAreNotQuantifiers(t: string)
    requires t == "(" || t == ")" || t == ""
    ensures !IsQuant(t) && !Folds(t, "not") && !Folds(t, "and") && !Folds(t, "or") && !Folds(t, "of")
  {
    assert t != "" ==> t[0] < '0';
    assert |ToLower(t)| <= 1;
  }

  lemma NegationIsNotQuantifier(t: string)
    ensures Folds(t, "not") ==> !IsQuant(t)
  {
    if Folds(t, "not") {
      assert ToLower(t)[0] == 'n' && ToLower(t)[1] == 'o';
      assert Magnitude(t) == t && t[1] > '9';
    }
  }

  lemma {:induction false} AtomFromComplete(toks: seq<string>, i: nat, j: nat, n: Node)
    requires i <= j <= |toks| && AtomSpan(toks, i, j, n)
    ensures AtomFrom(toks, i) == Ok(n, j) && !Folds(toks[i], "not")
    decreases j - i, 0
  {
    KeywordsAreNotQuantifiers("(");
    KeywordsAreNotQuantifiers(")");
    if n.Sel? && j == i + 1 && IsName(toks[i]) && n.name == toks[i] {
    } else if n.Of? && j == i + 3 && IsQuant(toks[i]) && Folds(toks[i + 1], "of") {
      NegationIsNotQuantifier(toks[i]);
    } else {
      OrFromComplete(toks, i + 1, j - 1, n);
    }
  }

  /** The parser accepts exactly the grammar, and its tree is the only one those tokens
      derive: the same tree on both sides of the equivalence, for every tree. */
  lemma {:induction false} ParserDecidesGrammar(toks: seq<string>, n: Node)
    ensures ParseTokens(toks) == Tree(n) <==> OrSpan(toks, 0, |toks|, n)
  {
    OrFromSound(toks, 0);
    if OrSpan(toks, 0, |toks|, n) {
      KeywordsAreNotQuantifiers("");
      OrFromComplete(toks, 0, |toks|, n);
    }
  }

  lemma {:induction false} DerivationIsUnique(toks: seq<string>, m: Node, n: Node)
    requires OrSpan(toks, 0, |toks|, m) && OrSpan(toks, 0, |toks|, n)
    ensures m == n
  {
    ParserDecidesGrammar(toks, m);
    ParserDecidesGrammar(toks, n);
  }

  /** Termination is the `decreases` measure above; progress is this: an accepted
      condition has been consumed to its last token. */
  lemma {:induction false} AcceptedMeansConsumed(toks: seq<string>)
    ensures ParseTokens(toks).Tree? <==> OrFrom(toks, 0).Ok? && OrFrom(toks, 0).pos == |toks|
    ensures ParseTokens(toks).Tree? ==> OrSpan(toks, 0, |toks|, ParseTokens(toks).node)
  {
    OrFromSound(toks, 0);
  }

  // ---------------------------------------------------------------- the cursor past the end

  lemma {:induction false} SamePeekSameParse(a: seq<string>, b: seq<string>, pos: nat)
    requires |b| == |a| + 1 && b == a + [""] && pos <= |a| + 1
    ensures OrFrom(a, pos) == OrFrom(b, pos)
    decreases |a| + 1 - pos, 3
  {
    SamePeekSameAnd(a, b, pos);
    var r := AndFrom(a, pos);
    if r.Ok? {
      SamePeekSameOrLoop(a, b, r.node, r.pos);
    }
  }

  lemma {:induction false} SamePeekSameOrLoop(a: seq<string>, b: seq<string>, left: Node, pos: nat)
    requires |b| == |a| + 1 && b == a + [""] && pos <= |a| + 1
    ensures OrLoop(a, left, pos) == OrLoop(b, left, pos)
    decreases |a| + 1 - pos, 4
  {
    if Folds(Peek(a, pos), "or") {
      SamePeekSameAnd(a, b, pos + 1);
      var r := AndFrom(a, pos + 1);
      if r.Ok? {
        SamePeekSameOrLoop(a, b, Or(left, r.node), r.pos);
      }
    }
  }

  lemma {:induction false} SamePeekSameAnd(a: seq<string>, b: seq<string>, pos: nat)
    requires |b| == |a| + 1 && b == a + [""] && pos <= |a| + 1
    ensures AndFrom(a, pos) == AndFrom(b, pos)
    decreases |a| + 1 - pos, 2
  {
    SamePeekSameNot(a, b, pos);
    var r := NotFrom(a, pos);
    if r.Ok? {
      SamePeekSameAndLoop(a, b, r.node, r.pos);
    }
  }

  lemma {:induction false} SamePeekSameAndLoop(a: seq<string>, b: seq<string>, left: Node, pos: nat)
    requires |b| == |a| + 1 && b == a + [""] && pos <= |a| + 1
    ensures AndLoop(a, left, pos) == AndLoop(b, left, pos)
    decreases |a| + 1 - pos, 4
  {
    if Folds(Peek(a, pos), "and") {
      SamePeekSameNot(a, b, pos + 1);
      var r := NotFrom(a, pos + 1);
      if r.Ok? {
        SamePeekSameAndLoop(a, b, And(left, r.node), r.pos);
      }
    }
  }

  lemma {:induction false} SamePeekSameNot(a: seq<string>, b: seq<string>, pos: nat)
    requires |b| == |a| + 1 && b == a + [""] && pos <= |a| + 1
    ensures NotFrom(a, pos) == NotFrom(b, pos)
    decreases |a| + 1 - pos, 1
  {
    if Folds(Peek(a, pos), "not") {
      SamePeekSameNot(a, b, pos + 1);
    } else if Peek(a, pos) == "(" {
      SamePeekSameParse(a, b, pos + 1);
    }
  }

  lemma {:induction false} EmptyTokenEndsInGlob(toks: seq<string>, i: nat, n: Node)
    requires i <= |toks| && |toks| > 0 && toks[|toks| - 1] == "" && OrSpan(toks, i, |toks|, n)
    ensures i + 3 <= |toks| && Folds(toks[|toks| - 2], "of") && IsQuant(toks[|toks| - 3])
    decreases |toks| - i, n
  {
    KeywordsAreNotQuantifiers("");
    if AndSpan(toks, i, |toks|, n) {
      EmptyTokenEndsInGlobAnd(toks, i, n);
    } else {
      var k :| i <= k < |toks| && OrSpan(toks, i, k, n.l) && Folds(toks[k], "or") && AndSpan(toks, k + 1, |toks|, n.r);
      EmptyTokenEndsInGlobAnd(toks, k + 1, n.r);
    }
  }

  lemma {:induction false} EmptyTokenEndsInGlobAnd(toks: seq<string>, i: nat, n: Node)
    requires i <= |toks| && |toks| > 0 && toks[|toks| - 1] == "" && AndSpan(toks, i, |toks|, n)
    ensures i + 3 <= |toks| && Folds(toks[|toks| - 2], "of") && IsQuant(toks[|toks| - 3])
  {
    KeywordsAreNotQuantifiers("");
    if NotSpan(toks, i, |toks|, n) {
      EmptyTokenEndsInGlobNot(toks, i, n);
    } else {
      var k :| i <= k < |toks| && AndSpan(toks, i, k, n.l) && Folds(toks[k], "and") &&
          NotSpan(toks, k + 1, |toks|, n.r);
      EmptyTokenEndsInGlobNot(toks, k + 1, n.r);
    }
  }

  lemma {:induction false} EmptyTokenEndsInGlobNot(toks: seq<string>, i: nat, n: Node)
    requires i <= |toks| && |toks| > 0 && toks[|toks| - 1] == "" && NotSpan(toks, i, |toks|, n)
    ensures i + 3 <= |toks| && Folds(toks[|toks| - 2], "of") && IsQuant(toks[|toks| - 3])
    decreases n
  {
    KeywordsAreNotQuantifiers("");
    if !AtomSpan(toks, i, |toks|, n) {
      EmptyTokenEndsInGlobNot(toks, i + 1, n.c);
    }
  }

  /** The grammar's four layers, by binding strength. */
  ghost predicate Span(level: nat, toks: seq<string>, i: nat, j: nat, n: Node)
    requires i <= j <= |toks|
  {
    match level
    case 0 => OrSpan(toks, i, j, n)
    case 1 => AndSpan(toks, i, j, n)
    case 2 => NotSpan(toks, i, j, n)
    case _ => AtomSpan(toks, i, j, n)
  }

  /** A derivation depends only on the tokens it covers, and covers at least one. */
  lemma {:induction false} SpanFrame(level: nat, a: seq<string>, b: seq<string>, i: nat, j: nat, n: Node)
    requires level <= 3 && i <= j <= |a| && j <= |b| && Span(level, a, i, j, n)
    requires forall k :: i <= k < j ==> a[k] == b[k]
    ensures i < j && Span(level, b, i, j, n)
    decreases j - i, 3 - level
  {
    if level < 3 && Span(level + 1, a, i, j, n) {
      SpanFrame(level + 1, a, b, i, j, n);
    } else {
      match level
      case 0 =>
        var k :| i <= k < j && OrSpan(a, i, k, n.l) && Folds(a[k], "or") && AndSpan(a, k + 1, j, n.r);
        SpanFrame(0, a, b, i, k, n.l);
        SpanFrame(1, a, b, k + 1, j, n.r);
      case 1 =>
        var k :| i <= k < j && AndSpan(a, i, k, n.l) && Folds(a[k], "and") && NotSpan(a, k + 1, j, n.r);
        SpanFrame(1, a, b, i, k, n.l);
        SpanFrame(2, a, b, k + 1, j, n.r);
      case 2 =>
        SpanFrame(2, a, b, i + 1, j, n.c);
      case _ =>
        if i + 2 <= j && OrSpan(a, i + 1, j - 1, n) {
          SpanFrame(0, a, b, i + 1, j - 1, n);
        }
    }
  }

  lemma OfIsNoJoiner(t: string)
    requires Folds(t, "of")
    ensures !Folds(t, "or") && !Folds(t, "and") && !Folds(t, "not")
  {
    assert ToLower(t)[1] == 'f';
  }

  /** After `of` any token but a closing parenthesis can only be the pattern, so any other
      token does as well there. */
  lemma {:induction false} PatternIsFree(level: nat, toks: seq<string>, g: string, h: string,
                                         i: nat, n: Node) returns (m: Node)
    requires level <= 3 && i < |toks| && Folds(toks[|toks| - 1], "of") && g != ")"
    requires Span(level, toks + [g], i, |toks| + 1, n)
    ensures Span(level, toks + [h], i, |toks| + 1, m)
    decreases |toks| - i, 3 - level
  {
    hide Folds, IsQuant, IsName, ToLower;
    var a, b, j := toks + [g], toks + [h], |toks| + 1;
    OfIsNoJoiner(toks[|toks| - 1]);
    if level < 3 && Span(level + 1, a, i, j, n) {
      m := PatternIsFree(level + 1, toks, g, h, i, n);
    } else {
      match level
      case 0 =>
        var k :| i <= k < j && OrSpan(a, i, k, n.l) && Folds(a[k], "or") && AndSpan(a, k + 1, j, n.r);
        SpanFrame(0, a, b, i, k, n.l);
        SpanFrame(1, a, a, k + 1, j, n.r);
        var r := PatternIsFree(1, toks, g, h, k + 1, n.r);
        m := Or(n.l, r);
      case 1 =>
        var k :| i <= k < j && AndSpan(a, i, k, n.l) && Folds(a[k], "and") && NotSpan(a, k + 1, j, n.r);
        SpanFrame(1, a, b, i, k, n.l);
        SpanFrame(2, a, a, k + 1, j, n.r);
        var r := PatternIsFree(2, toks, g, h, k + 1, n.r);
        m := And(n.l, r);
      case 2 =>
        SpanFrame(2, a, a, i + 1, j, n.c);
        var c := PatternIsFree(2, toks, g, h, i + 1, n.c);
        m := Not(c);
      case _ =>
        m := Of(ToLower(toks[i]), h);
    }
  }

  lemma {:induction false} AnyPatternWillDo(toks: seq<string>, g: string, h: string)
    requires toks != [] && Folds(toks[|toks| - 1], "of") && g != ")" && Derivable(toks + [g])
    ensures Derivable(toks + [h])
  {
    var n :| OrSpan(toks + [g], 0, |toks + [g]|, n);
    var m := PatternIsFree(0, toks, g, h, 0, n);
    assert OrSpan(toks + [h], 0, |toks + [h]|, m);
  }

  /** The index goes out of range exactly when the tokens with one empty token more derive a
      tree; they then end in a quantifier and `of`. */
  lemma {:induction false} PanicsOnOverrun(toks: seq<string>)
    ensures ParseTokens(toks).Panics? <==> Derivable(toks + [""])
    ensures ParseTokens(toks).Panics? ==>
      |toks| >= 2 && Folds(toks[|toks| - 1], "of") && IsQuant(toks[|toks| - 2])
  {
    var more := toks + [""];
    SamePeekSameParse(toks, more, 0);
    var r := OrFrom(toks, 0);
    if r.Ok? {
      ParserDecidesGrammar(more, r.node);
      if r.pos == |toks| + 1 {
        EmptyTokenEndsInGlob(more, 0, r.node);
      }
    }
    if Derivable(more) {
      var n :| OrSpan(more, 0, |more|, n);
      ParserDecidesGrammar(more, n);
    }
  }

  /** The check after the parse indexes out of range exactly on conditions that end in `of` and
      that some pattern, and then every pattern, would complete. */
  lemma {:induction false} PanicsExactlyOnDanglingOf(toks: seq<string>, pattern: string)
    requires pattern != ")"
    ensures ParseTokens(toks).Panics? <==>
      toks != [] && Folds(toks[|toks| - 1], "of") && ParseTokens(toks + [pattern]).Tree?
  {
    hide ParseTokens, OrSpan;
    PanicsOnOverrun(toks);
    AcceptedIffDerivable(toks + [pattern]);
    if toks != [] && Folds(toks[|toks| - 1], "of") {
      if Derivable(toks + [""]) {
        AnyPatternWillDo(toks, "", pattern);
      }
      if Derivable(toks + [pattern]) {
        AnyPatternWillDo(toks, pattern, "");
      }
    }
  }

  lemma AcceptedIffDerivable(toks: seq<string>)
    ensures ParseTokens(toks).Tree? <==> Derivable(toks)
  {
    hide ParseTokens, OrSpan;
    if ParseTokens(toks).Tree? {
      ParserDecidesGrammar(toks, ParseTokens(toks).node);
    }
    if Derivable(toks) {
      var n :| OrSpan(toks, 0, |toks|, n);
      ParserDecidesGrammar(toks, n);
    }
  }

  // ---------------------------------------------------------------- printing

  /** Binding strength: or 0, and 1, not 2, atoms 3. */
  function Strength(n: Node): (k: nat)
    ensures k <= 3
  {
    match n
    case Or(_, _) => 0
    case And(_, _) => 1
    case Not(_) => 2
    case _ => 3
  }

  function Body(n: Node): seq<string>
    decreases n, 0
  {
    match n
    case Sel(name) => [name]
    case Of(quant, glob) => [quant, "of", glob]
    case Or(l, r) => Print(l, 0) + ["or"] + Print(r, 1)
    case And(l, r) => Print(l, 1) + ["and"] + Print(r, 2)
    case Not(c) => ["not"] + Print(c, 2)
  }

  /** The tokens of n where binding strength `level` is called for: parentheses are written
      only around a weaker tree. */
  function Print(n: Node, level: nat): seq<string>
    decreases n, 1
  {
    if Strength(n) < level then ["("] + Body(n) + [")"] else Body(n)
  }

  /** A tree some condition text can denote: names that read as names, quantifiers in the
      lower case the parser leaves them in, and tokens the tokeniser keeps whole. */
  predicate Printable(n: Node) {
    match n
    case Sel(name) => IsName(name) && IsToken(name)
    case Of(quant, glob) => IsQuant(quant) && ToLower(quant) == quant && IsToken(quant) && IsToken(glob)
    case Or(l, r) => Printable(l) && Printable(r)
    case And(l, r) => Printable(l) && Printable(r)
    case Not(c) => Printable(c)
  }

  predicate IsToken(t: string) {
    || t == "(" || t == ")"
    || (t != "" && forall i :: 0 <= i < |t| ==> !IsSpace(t[i]) && t[i] != '(' && t[i] != ')')
  }

  /** `part` sits in `whole` from position i. */
  ghost predicate At(whole: seq<string>, i: nat, part: seq<string>) {
    i + |part| <= |whole| && forall m :: 0 <= m < |part| ==> whole[i + m] == part[m]
  }

  lemma KeywordsFold()
    ensures Folds("or", "or") && Folds("and", "and") && Folds("not", "not") && Folds("of", "of")
  {
  }

  lemma AtSplit(whole: seq<string>, i: nat, a: seq<string>, b: seq<string>)
    requires At(whole, i, a + b)
    ensures At(whole, i, a) && At(whole, i + |a|, b)
  {
    forall m | 0 <= m < |a|
      ensures whole[i + m] == a[m]
    {
      assert (a + b)[m] == a[m];
    }
    forall m | 0 <= m < |b|
      ensures whole[i + |a| + m] == b[m]
    {
      assert (a + b)[|a| + m] == b[m];
    }
  }

  lemma AtElement(whole: seq<string>, i: nat, part: seq<string>, m: nat)
    requires At(whole, i, part) && m < |part|
    ensures whole[i + m] == part[m]
  {
  }

  lemma AtThree(whole: seq<string>, i: nat, a: seq<string>, t: string, b: seq<string>) returns (k: nat)
    requires At(whole, i, a + [t] + b)
    ensures k == i + |a| && k + 1 + |b| <= |whole|
    ensures At(whole, i, a) && whole[k] == t && At(whole, k + 1, b)
  {
    k := i + |a|;
    AtSplit(whole, i, a + [t], b);
    AtSplit(whole, i, a, [t]);
    AtElement(whole, k, [t], 0);
  }

  lemma OrJoin(w: seq<string>, i: nat, k: nat, j: nat, l: Node, r: Node)
    requires i <= k < j <= |w|
    requires OrSpan(w, i, k, l) && Folds(w[k], "or") && AndSpan(w, k + 1, j, r)
    ensures OrSpan(w, i, j, Or(l, r))
  {
  }

  lemma AndJoin(w: seq<string>, i: nat, k: nat, j: nat, l: Node, r: Node)
    requires i <= k < j <= |w|
    requires AndSpan(w, i, k, l) && Folds(w[k], "and") && NotSpan(w, k + 1, j, r)
    ensures AndSpan(w, i, j, And(l, r))
  {
  }

  lemma NotJoin(w: seq<string>, i: nat, j: nat, c: Node)
    requires i < j <= |w| && Folds(w[i], "not") && NotSpan(w, i + 1, j, c)
    ensures NotSpan(w, i, j, Not(c))
  {
  }

  lemma ParenJoin(w: seq<string>, i: nat, j: nat, n: Node)
    requires i + 2 <= j <= |w| && w[i] == "(" && w[j - 1] == ")" && OrSpan(w, i + 1, j - 1, n)
    ensures AtomSpan(w, i, j, n)
  {
  }

  /** Each layer contains the stronger ones. */
  lemma Weaken(strong: nat, weak: nat, w: seq<string>, i: nat, j: nat, n: Node)
    requires weak <= strong <= 3 && i <= j <= |w| && Span(strong, w, i, j, n)
    ensures Span(weak, w, i, j, n)
  {
  }

  lemma {:induction false} PrintSpans(n: Node, level: nat, w: seq<string>, i: nat)
    requires level <= 3 && Printable(n) && At(w, i, Print(n, level))
    ensures Span(level, w, i, i + |Print(n, level)|, n)
    decreases n, 1
  {
    hide At, Folds, IsName, IsQuant, IsToken, AndSpan, NotSpan, AtomSpan, OrSpan;
    var j := i + |Print(n, level)|;
    if Strength(n) < level {
      AtSplit(w, i, ["("] + Body(n), [")"]);
      AtSplit(w, i, ["("], Body(n));
      AtElement(w, i, ["("], 0);
      AtElement(w, j - 1, [")"], 0);
      BodySpans(n, w, i + 1);
      Weaken(Strength(n), 0, w, i + 1, j - 1, n);
      ParenJoin(w, i, j, n);
      Weaken(3, level, w, i, j, n);
    } else {
      BodySpans(n, w, i);
      Weaken(Strength(n), level, w, i, j, n);
    }
  }

  lemma {:induction false} BodySpans(n: Node, w: seq<string>, i: nat)
    requires Printable(n) && At(w, i, Body(n))
    ensures i + |Body(n)| <= |w| && Span(Strength(n), w, i, i + |Body(n)|, n)
    decreases n, 0
  {
    hide Folds, IsName, IsQuant, IsToken, AndSpan, NotSpan, AtomSpan, OrSpan;
    var j := i + |Body(n)|;
    KeywordsFold();
    match n
    case Sel(name) =>
      SelSpans(name, w, i);
    case Of(quant, glob) =>
      OfSpans(quant, glob, w, i);
    case Or(l, r) =>
      var k := AtThree(w, i, Print(l, 0), "or", Print(r, 1));
      PrintSpans(l, 0, w, i);
      PrintSpans(r, 1, w, k + 1);
      OrJoin(w, i, k, j, l, r);
    case And(l, r) =>
      var k := AtThree(w, i, Print(l, 1), "and", Print(r, 2));
      PrintSpans(l, 1, w, i);
      PrintSpans(r, 2, w, k + 1);
      AndJoin(w, i, k, j, l, r);
    case Not(c) =>
      AtSplit(w, i, ["not"], Print(c, 2));
      AtElement(w, i, ["not"], 0);
      PrintSpans(c, 2, w, i + 1);
      NotJoin(w, i, j, c);
  }

  lemma SelSpans(name: string, w: seq<string>, i: nat)
    requires IsName(name) && At(w, i, [name])
    ensures AtomSpan(w, i, i + 1, Sel(name))
  {
    AtElement(w, i, [name], 0);
  }

  lemma OfSpans(quant: string, glob: string, w: seq<string>, i: nat)
    requires Printable(Of(quant, glob)) && At(w, i, [quant, "of", glob])
    ensures AtomSpan(w, i, i + 3, Of(quant, glob))
  {
    KeywordsFold();
    AtElement(w, i, [quant, "of", glob], 0);
    AtElement(w, i, [quant, "of", glob], 1);
    AtElement(w, i, [quant, "of", glob], 2);
  }

  // ---------------------------------------------------------------- round trip

  function Spaced(toks: seq<string>): string {
    if toks == [] then "" else toks[0] + " " + Spaced(toks[1..])
  }

  lemma {:induction false} PadConcat(a: string, b: string)
    ensures Pad(a + b) == Pad(a) + Pad(b)
  {
    if a == "" {
      assert a + b == b;
    } else {
      assert (a + b)[1..] == a[1..] + b;
      calc {
        Pad(a + b);
        PadChar(a[0]) + Pad(a[1..] + b);
        { PadConcat(a[1..], b); }
        PadChar(a[0]) + (Pad(a[1..]) + Pad(b));
        (PadChar(a[0]) + Pad(a[1..])) + Pad(b);
        Pad(a) + Pad(b);
      }
    }
  }

  lemma {:induction false} PadWord(t: string)
    requires forall i :: 0 <= i < |t| ==> t[i] != '(' && t[i] != ')'
    ensures Pad(t) == t
  {
    if t != "" {
      PadWord(t[1..]);
      assert t == [t[0]] + t[1..];
    }
  }

  lemma {:induction false} WordLengthOf(t: string, rest: string)
    requires forall i :: 0 <= i < |t| ==> !IsSpace(t[i])
    requires rest == "" || IsSpace(rest[0])
    ensures WordLength(t + rest) == |t|
  {
    if t == "" {
      assert t + rest == rest;
    } else {
      assert (t + rest)[1..] == t[1..] + rest;
      WordLengthOf(t[1..], rest);
    }
  }

  lemma {:induction false} FieldsWord(t: string, rest: string)
    requires t != "" && forall i :: 0 <= i < |t| ==> !IsSpace(t[i])
    requires rest != "" && IsSpace(rest[0])
    ensures Fields(t + rest) == [t] + Fields(rest[1..])
  {
    WordLengthOf(t, rest);
    assert (t + rest)[..|t|] == t && (t + rest)[|t|..] == rest;
  }

  lemma FieldsSpace(s: string)
    ensures Fields(" " + s) == Fields(s)
  {
    assert (" " + s)[1..] == s;
  }

  lemma {:induction false} TokenizeCons(t: string, more: string)
    requires IsToken(t)
    ensures Tokenize(t + " " + more) == [t] + Tokenize(more)
  {
    hide Pad;
    var tail := " " + Pad(more);
    FieldsSpace(Pad(more));
    PadTail(t, more);
    if t == "(" || t == ")" {
      ParenFields(t, tail);
    } else {
      PadWord(t);
      FieldsWord(t, tail);
      assert tail[1..] == Pad(more);
    }
  }

  lemma PadTail(t: string, more: string)
    ensures Pad(t + " " + more) == Pad(t) + (" " + Pad(more))
  {
    PadConcat(t + " ", more);
    PadConcat(t, " ");
    assert Pad(" ") == " " + Pad("");
  }

  lemma ParenFields(t: string, tail: string)
    requires t == "(" || t == ")"
    ensures Fields(Pad(t) + tail) == [t] + Fields(tail)
  {
    assert Pad(t) == PadChar(t[0]) + "";
    FieldsSpace(t + (" " + tail));
    assert Pad(t) + tail == " " + (t + (" " + tail));
    FieldsWord(t, " " + tail);
    assert (" " + tail)[1..] == tail;
  }

  lemma {:induction false} TokenizeSpaced(toks: seq<string>)
    requires AllTokens(toks)
    ensures Tokenize(Spaced(toks)) == toks
  {
    if toks != [] {
      TokenizeSpaced(toks[1..]);
      TokenizeCons(toks[0], Spaced(toks[1..]));
      assert toks == [toks[0]] + toks[1..];
    }
  }

  predicate AllTokens(toks: seq<string>) {
    forall i :: 0 <= i < |toks| ==> IsToken(toks[i])
  }

  lemma AllTokensJoin(a: seq<string>, t: string, b: seq<string>)
    requires AllTokens(a) && IsToken(t) && AllTokens(b)
    ensures AllTokens(a + [t] + b)
  {
  }

  lemma {:induction false} PrintedTokens(n: Node, level: nat)
    requires Printable(n)
    ensures AllTokens(Body(n)) && AllTokens(Print(n, level))
  {
    hide AllTokens, IsToken, IsName, IsQuant;
    KeywordTokens();
    match n {
      case Sel(name) =>
        AllTokensPrefix(name, []);
        assert [name] + [] == [name];
      case Of(quant, glob) =>
        AllTokensPrefix(glob, []);
        assert [glob] + [] == [glob];
        AllTokensPrefix("of", [glob]);
        AllTokensPrefix(quant, ["of", glob]);
        assert ["of"] + [glob] == ["of", glob] && [quant] + ["of", glob] == [quant, "of", glob];
      case Or(l, r) =>
        PrintedTokens(l, 0);
        PrintedTokens(r, 1);
        AllTokensJoin(Print(l, 0), "or", Print(r, 1));
      case And(l, r) =>
        PrintedTokens(l, 1);
        PrintedTokens(r, 2);
        AllTokensJoin(Print(l, 1), "and", Print(r, 2));
      case Not(c) =>
        PrintedTokens(c, 2);
        AllTokensPrefix("not", Print(c, 2));
    }
    Parenthesised(Body(n));
  }

  lemma KeywordTokens()
    ensures IsToken("or") && IsToken("and") && IsToken("not") && IsToken("of") && AllTokens([])
  {
  }

  lemma AllTokensPrefix(t: string, b: seq<string>)
    requires IsToken(t) && AllTokens(b)
    ensures AllTokens([t] + b)
  {
  }

  lemma Parenthesised(body: seq<string>)
    requires AllTokens(body)
    ensures AllTokens(["("] + body + [")"])
  {
  }

  /** Printing a tree, tokenising the text and parsing it gives the tree back. */
  lemma {:induction false} PrintParseRoundTrip(n: Node)
    requires Printable(n)
    ensures ParseTokens(Tokenize(Spaced(Print(n, 0)))) == Tree(n)
  {
    hide AllTokens, Tokenize, AndSpan, NotSpan, AtomSpan, OrSpan, ParseTokens, Print;
    var w := Print(n, 0);
    PrintedTokens(n, 0);
    TokenizeSpaced(w);
    assert At(w, 0, w);
    PrintSpans(n, 0, w, 0);
    ParserDecidesGrammar(w, n);
  }

  /** The shortest such condition: a quantifier and `of` with nothing after it. */
  lemma OneOfPanics()
    ensures Tokenize("1 of") == ["1", "of"] && ParseTokens(Tokenize("1 of")) == Panics
  {
    OneOfTokens();
    OneOf(["1", "of"]);
    hide Tokenize, OrFrom;
  }

  lemma OneOfTokens()
    ensures Tokenize("1 of") == ["1", "of"]
  {
    assert Pad("1 of") == "1 of" by {
      assert "1 of"[1..] == " of" && " of"[1..] == "of" && "of"[1..] == "f" && "f"[1..] == "";
      assert Pad("f") == "f" && Pad("of") == "of" && Pad(" of") == " of";
    }
    hide Pad;
    assert Fields("of") == ["of"] by {
      assert "of"[1..] == "f" && "f"[1..] == "" && WordLength("f") == 1 && WordLength("of") == 2;
      assert "of"[..2] == "of" && "of"[2..] == "";
    }
    assert Fields(" of") == Fields("of") by {
      assert " of"[1..] == "of";
    }
    assert "1 of"[1..] == " of" && WordLength("1 of") == 1 && "1 of"[..1] == "1";
  }

  lemma OneOf(toks: seq<string>)
    requires toks == ["1", "of"]
    ensures OrFrom(toks, 0) == Ok(Of("1", ""), 3)
  {
    KeywordsAreNotQuantifiers("");
    assert !Folds("1", "not") by {
      assert |ToLower("1")| == 1;
    }
    assert IsInt("1") && ToLower("1") == "1" by {
      assert Magnitude("1") == "1" && "1"[..0] == "" && Value("1") == 1;
    }
    assert Folds("of", "of") by {
      assert ToLower("of") == "of";
    }
    hide IsInt, ToLower;
    assert AtomFrom(toks, 0) == Ok(Of("1", ""), 3);
    assert NotFrom(toks, 0) == Ok(Of("1", ""), 3);
    assert AndFrom(toks, 0) == Ok(Of("1", ""), 3);
  }

  /** Every tree the parser returns can be printed. */
  lemma {:induction false} OrSpanPrintable(toks: seq<string>, i: nat, j: nat, n: Node)
    requires i <= j <= |toks| && OrSpan(toks, i, j, n) && AllTokens(toks)
    ensures Printable(n)
    decreases j - i, 3
  {
    if AndSpan(toks, i, j, n) {
      AndSpanPrintable(toks, i, j, n);
    } else {
      var k :| i <= k < j && OrSpan(toks, i, k, n.l) && Folds(toks[k], "or") && AndSpan(toks, k + 1, j, n.r);
      OrSpanPrintable(toks, i, k, n.l);
      AndSpanPrintable(toks, k + 1, j, n.r);
    }
  }

  lemma {:induction false} AndSpanPrintable(toks: seq<string>, i: nat, j: nat, n: Node)
    requires i <= j <= |toks| && AndSpan(toks, i, j, n) && AllTokens(toks)
    ensures Printable(n)
    decreases j - i, 2
  {
    if NotSpan(toks, i, j, n) {
      NotSpanPrintable(toks, i, j, n);
    } else {
      var k :| i <= k < j && AndSpan(toks, i, k, n.l) && Folds(toks[k], "and") && NotSpan(toks, k + 1, j, n.r);
      AndSpanPrintable(toks, i, k, n.l);
      NotSpanPrintable(toks, k + 1, j, n.r);
    }
  }

  lemma {:induction false} NotSpanPrintable(toks: seq<string>, i: nat, j: nat, n: Node)
    requires i <= j <= |toks| && NotSpan(toks, i, j, n) && AllTokens(toks)
    ensures Printable(n)
    decreases j - i, 1
  {
    if AtomSpan(toks, i, j, n) {
      AtomSpanPrintable(toks, i, j, n);
    } else {
      NotSpanPrintable(toks, i + 1, j, n.c);
    }
  }

  lemma {:induction false} AtomSpanPrintable(toks: seq<string>, i: nat, j: nat, n: Node)
    requires i <= j <= |toks| && AtomSpan(toks, i, j, n) && AllTokens(toks)
    ensures Printable(n)
    decreases j - i, 0
  {
    if i + 2 <= j && OrSpan(toks, i + 1, j - 1, n) {
      OrSpanPrintable(toks, i + 1, j - 1, n);
    } else if n.Of? {
      LowerQuantifier(toks[i]);
    }
  }

  /** Printing what was parsed and parsing it again changes nothing. */
  lemma {:induction false} ParsePrintRoundTrip(toks: seq<string>)
    requires AllTokens(toks) && ParseTokens(toks).Tree?
    ensures ParseTokens(Tokenize(Spaced(Print(ParseTokens(toks).node, 0)))) == ParseTokens(toks)
  {
    var n := ParseTokens(toks).node;
    ParserDecidesGrammar(toks, n);
    OrSpanPrintable(toks, 0, |toks|, n);
    PrintParseRoundTrip(n);
  }

  lemma LowerQuantifier(t: string)
    requires IsQuant(t) && IsToken(t)
    ensures IsQuant(ToLower(t)) && ToLower(ToLower(t)) == ToLower(t) && IsToken(ToLower(t))
  {
    if IsInt(t) {
      LowerInt(t);
    }
  }

  lemma LowerInt(t: string)
    requires IsInt(t)
    ensures ToLower(t) == t
  {
    forall i | 0 <= i < |t|
      ensures LowerChar(t[i]) == t[i]
    {
      if i > 0 {
        assert t[i] == Magnitude(t)[if Signed(t) then i - 1 else i];
      }
    }
  }

  /** No other token sequence that derives the tree is shorter, so the printer writes the
      fewest parentheses: every other token of a derivation is fixed by the tree. */
  lemma {:induction false} PrintingIsShortest(level: nat, toks: seq<string>, i: nat, j: nat, n: Node)
    requires level <= 3 && i <= j <= |toks| && Span(level, toks, i, j, n)
    ensures |Print(n, level)| <= j - i
    decreases j - i, 3 - level
  {
    if level < 3 && Span(level + 1, toks, i, j, n) {
      PrintingIsShortest(level + 1, toks, i, j, n);
    } else {
      match level
      case 0 =>
        var k :| i <= k < j && OrSpan(toks, i, k, n.l) && Folds(toks[k], "or") && AndSpan(toks, k + 1, j, n.r);
        PrintingIsShortest(0, toks, i, k, n.l);
        PrintingIsShortest(1, toks, k + 1, j, n.r);
      case 1 =>
        var k :| i <= k < j && AndSpan(toks, i, k, n.l) && Folds(toks[k], "and") && NotSpan(toks, k + 1, j, n.r);
        PrintingIsShortest(1, toks, i, k, n.l);
        PrintingIsShortest(2, toks, k + 1, j, n.r);
      case 2 =>
        PrintingIsShortest(2, toks, i + 1, j, n.c);
      case _ =>
        if i + 2 <= j && OrSpan(toks, i + 1, j - 1, n) {
          PrintingIsShortest(0, toks, i + 1, j - 1, n);
        }
    }
  }

  // ---------------------------------------------------------------- evaluation

  predicate GlobMatch(glob: string, name: string) {
    if |glob| > 0 && glob[|glob| - 1] == '*' then glob[..|glob| - 1] <= name else glob == name
  }

  predicate Selects(glob: string, name: string) {
    glob == "them" || GlobMatch(glob, name)
  }

  ghost function Selected(glob: string, m: map<string, bool>): set<string> {
    set name | name in m && Selects(glob, name)
  }

  ghost function Matching(glob: string, m: map<string, bool>): set<string> {
    set name | name in m && Selects(glob, name) && m[name]
  }

  /** What an "N of" node means in this engine. */
  ghost predicate OfHolds(quant: string, glob: string, m: map<string, bool>) {
    && Selected(glob, m) != {}
    && if quant == "any" || quant == "1" then exists name :: name in Selected(glob, m) && m[name]
       else forall name :: name in Selected(glob, m) ==> m[name]
  }

  /** The counting loop, over the map's entries in whatever order they come. */
  method EvalOf(quant: string, glob: string, m: map<string, bool>) returns (r: bool)
    ensures r == OfHolds(quant, glob, m)
  {
    var anyOf := quant == "any" || quant == "1";
    var matched, total := 0, 0;
    var left := m.Keys;
    ghost var seen: set<string> := {};
    while left != {}
      invariant seen !! left && seen + left == m.Keys
      invariant total == |set name | name in seen && Selects(glob, name)|
      invariant matched == |set name | name in seen && Selects(glob, name) && m[name]|
      decreases left
    {
      var name :| name in left;
      GrowSelected(glob, m, seen, name);
      if Selects(glob, name) {
        total := total + 1;
        if m[name] {
          matched := matched + 1;
        }
      }
      left, seen := left - {name}, seen + {name};
    }
    assert seen == m.Keys;
    assert (set name | name in seen && Selects(glob, name)) == Selected(glob, m);
    assert (set name | name in seen && Selects(glob, name) && m[name]) == Matching(glob, m);
    CountsDecide(glob, m);
    if total == 0 {
      return false;
    }
    r := if anyOf then matched >= 1 else matched == total;
  }

  lemma GrowSelected(glob: string, m: map<string, bool>, seen: set<string>, name: string)
    requires name in m && name !in seen && seen <= m.Keys
    ensures |set x | x in seen + {name} && Selects(glob, x)|
         == |set x | x in seen && Selects(glob, x)| + if Selects(glob, name) then 1 else 0
    ensures |set x | x in seen + {name} && Selects(glob, x) && m[x]|
         == |set x | x in seen && Selects(glob, x) && m[x]| + if Selects(glob, name) && m[name] then 1 else 0
  {
    var a, b := set x | x in seen && Selects(glob, x), set x | x in seen && Selects(glob, x) && m[x];
    assert (set x | x in seen + {name} && Selects(glob, x)) == if Selects(glob, name) then a + {name} else a;
    assert (set x | x in seen + {name} && Selects(glob, x) && m[x])
        == if Selects(glob, name) && m[name] then b + {name} else b;
  }

  lemma SubsetSize<T>(a: set<T>, b: set<T>)
    requires a <= b
    ensures |a| <= |b| && (|a| == |b| <==> a == b)
  {
    assert b == a + (b - a);
    if a != b {
      var x :| x in b - a;
      assert |b - a| > 0;
    }
  }

  lemma CountsDecide(glob: string, m: map<string, bool>)
    ensures var total, matched := Selected(glob, m), Matching(glob, m);
      && matched <= total
      && (|total| == 0 <==> total == {})
      && (|matched| >= 1 <==> exists name :: name in total && m[name])
      && (|matched| == |total| <==> forall name :: name in total ==> m[name])
  {
    var total, matched := Selected(glob, m), Matching(glob, m);
    SubsetSize(matched, total);
    if exists name :: name in total && m[name] {
      var name :| name in total && m[name];
      assert name in matched;
    }
    if matched != {} {
      var name :| name in matched;
      assert name in total && m[name];
    }
  }

  ghost predicate Holds(n: Node, m: map<string, bool>) {
    match n
    case Sel(name) => name in m && m[name]
    case Not(c) => !Holds(c, m)
    case And(l, r) => Holds(l, m) && Holds(r, m)
    case Or(l, r) => Holds(l, m) || Holds(r, m)
    case Of(quant, glob) => OfHolds(quant, glob, m)
  }

  method Eval(n: Node, m: map<string, bool>) returns (r: bool)
    ensures r == Holds(n, m)
  {
    match n
    case Sel(name) => r := name in m && m[name];
    case Not(c) => r := Eval(c, m); r := !r;
    case And(l, r0) => r := Eval(l, m); if r { r := Eval(r0, m); }
    case Or(l, r0) => r := Eval(l, m); if !r { r := Eval(r0, m); }
    case Of(quant, glob) => r := EvalOf(quant, glob, m);
  }

  /** What the condition language documents: at least N of the selections match. */
  ghost predicate AtLeast(n: int, glob: string, m: map<string, bool>) {
    |Matching(glob, m)| >= n
  }

  /** Two results of evaluating the same selections. */
  ghost predicate SameSelections(names: set<string>, m: map<string, bool>) {
    m.Keys == names
  }

  ghost function Picks(names: set<string>, chosen: set<string>): map<string, bool> {
    map name | name in names :: name in chosen
  }

  /** "N of glob" with a numeral other than `1` reads as "all of glob".  Over the selections
      of one rule it agrees with "at least N" on every outcome exactly when N is positive and
      the glob picks none or exactly N of them. */
  lemma {:induction false} NumericQuantifierIsAll(q: string, glob: string, names: set<string>)
    requires IsInt(q) && q != "1"
    ensures var picked := |set name | name in names && Selects(glob, name)|;
      (forall m :: SameSelections(names, m) ==> (OfHolds(q, glob, m) <==> AtLeast(IntValue(q), glob, m)))
      <==> IntValue(q) >= 1 && (picked == 0 || picked == IntValue(q))
  {
    var n := IntValue(q);
    var total := set name | name in names && Selects(glob, name);
    assert q != "any";
    forall m | SameSelections(names, m)
      ensures Selected(glob, m) == total
      ensures OfHolds(q, glob, m) <==> total != {} && |Matching(glob, m)| == |total|
      ensures |Matching(glob, m)| <= |total|
    {
      assert Selected(glob, m) == total;
      CountsDecide(glob, m);
      SubsetSize(Matching(glob, m), Selected(glob, m));
    }
    if !(n >= 1 && (|total| == 0 || |total| == n)) {
      // a map of outcomes on which the two readings differ
      var chosen: set<string>;
      if n <= 0 {
        chosen := {};
      } else if |total| < n {
        chosen := total;
      } else {
        var x :| x in total;
        chosen := total - {x};
      }
      var m := Picks(names, chosen);
      assert SameSelections(names, m);
      assert Matching(glob, m) == chosen;
    }
  }
}
