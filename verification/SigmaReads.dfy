/** What a Sigma condition says, from its text and the matched selections alone:
    `engine/sigma.go`, lines 311-441.  `SigmaCondition` proves the parser against its grammar and
    the evaluation against the tree; here single conditions, patterns and texts are spelled out. */
module SigmaReads {
  import opened Texts
  import opened SigmaCondition

  // ---------------------------------------------------------------- keywords and patterns

  /** Keywords are recognised in any mix of upper and lower case, and in no other spelling. */
  lemma FoldsMeans(t: string, keyword: string)
    requires forall i :: 0 <= i < |keyword| ==> 'a' <= keyword[i] <= 'z'
    ensures Folds(t, keyword) <==>
      |t| == |keyword| && forall i :: 0 <= i < |t| ==> t[i] == keyword[i] || t[i] as int + 32 == keyword[i] as int
  {
    if Folds(t, keyword) {
      assert forall i :: 0 <= i < |t| ==> LowerChar(t[i]) == ToLower(t)[i] == keyword[i];
    }
    if |t| == |keyword| && forall i :: 0 <= i < |t| ==> t[i] == keyword[i] || t[i] as int + 32 == keyword[i] as int {
      assert forall i :: 0 <= i < |t| ==> ToLower(t)[i] == keyword[i];
    }
  }

  /** A pattern picks a selection if it is `them`, is its name, or is the beginning of its name
      with a star after it. */
  ghost predicate Picked(glob: string, name: string) {
    glob == "them" || glob == name || exists start: string :: glob == start + "*" && start <= name
  }

  lemma SelectsMeans(glob: string, name: string)
    ensures Selects(glob, name) <==> Picked(glob, name)
  {
    if |glob| > 0 && glob[|glob| - 1] == '*' {
      var start := glob[..|glob| - 1];
      assert glob == start + "*";
      forall other: string | glob == other + "*"
        ensures other == start
      {
        assert other == (other + "*")[..|other|];
      }
    }
  }

  /** `1 of` and `any of` want some picked selection to have matched, every other quantifier all
      of them; a pattern that picks nothing is false. */
  lemma OfMeans(quant: string, glob: string, m: map<string, bool>)
    ensures Holds(Of(quant, glob), m) <==>
      if quant == "any" || quant == "1" then exists name :: name in m && Picked(glob, name) && m[name]
      else
        && (exists name :: name in m && Picked(glob, name))
        && forall name :: name in m && Picked(glob, name) ==> m[name]
  {
    hide Picked, Selects;
    forall name
      ensures Selects(glob, name) <==> Picked(glob, name)
    {
      SelectsMeans(glob, name);
    }
    assert forall name :: name in Selected(glob, m) <==> name in m && Picked(glob, name);
  }

  // ---------------------------------------------------------------- whole conditions

  predicate True(m: map<string, bool>, name: string) {
    name in m && m[name]
  }

  lemma NameSpans(toks: seq<string>, i: nat)
    requires i < |toks| && IsName(toks[i])
    ensures AtomSpan(toks, i, i + 1, Sel(toks[i])) && NotSpan(toks, i, i + 1, Sel(toks[i]))
    ensures AndSpan(toks, i, i + 1, Sel(toks[i])) && OrSpan(toks, i, i + 1, Sel(toks[i]))
  {
    hide IsName;
  }

  /** AND binds tighter than OR and NOT tightest, whatever case the keywords are in. */
  lemma {:induction false} PrecedenceMeans(toks: seq<string>, m: map<string, bool>)
    requires |toks| == 6 && IsName(toks[0]) && IsName(toks[2]) && IsName(toks[5])
    requires Folds(toks[1], "or") && Folds(toks[3], "and") && Folds(toks[4], "not")
    ensures ParseTokens(toks).Tree?
    ensures Holds(ParseTokens(toks).node, m) <==> True(m, toks[0]) || (True(m, toks[2]) && !True(m, toks[5]))
  {
    hide IsName, Folds, AtomSpan, NotSpan, AndSpan, OrSpan, ParseTokens;
    NameSpans(toks, 0);
    NameSpans(toks, 2);
    NameSpans(toks, 5);
    NotJoin(toks, 4, 6, Sel(toks[5]));
    AndJoin(toks, 2, 3, 6, Sel(toks[2]), Not(Sel(toks[5])));
    var tree := Or(Sel(toks[0]), And(Sel(toks[2]), Not(Sel(toks[5]))));
    OrJoin(toks, 0, 1, 6, tree.l, tree.r);
    assert Holds(tree.r.r, m) <==> !True(m, toks[5]);
    assert Holds(tree.r, m) <==> Holds(tree.r.l, m) && Holds(tree.r.r, m);
    ParserDecidesGrammar(toks, tree);
  }

  /** Parentheses come first. */
  lemma {:induction false} ParenthesesMean(toks: seq<string>, m: map<string, bool>)
    requires |toks| == 7 && IsName(toks[1]) && IsName(toks[3]) && IsName(toks[6])
    requires toks[0] == "(" && Folds(toks[2], "or") && toks[4] == ")" && Folds(toks[5], "and")
    ensures ParseTokens(toks).Tree?
    ensures Holds(ParseTokens(toks).node, m) <==> (True(m, toks[1]) || True(m, toks[3])) && True(m, toks[6])
  {
    hide IsName, Folds, AtomSpan, NotSpan, AndSpan, OrSpan, ParseTokens;
    NameSpans(toks, 1);
    NameSpans(toks, 3);
    NameSpans(toks, 6);
    var either := Or(Sel(toks[1]), Sel(toks[3]));
    OrJoin(toks, 1, 2, 4, either.l, either.r);
    ParenJoin(toks, 0, 5, either);
    Weaken(3, 1, toks, 0, 5, either);
    AndJoin(toks, 0, 5, 7, either, Sel(toks[6]));
    var tree := And(either, Sel(toks[6]));
    Weaken(1, 0, toks, 0, 7, tree);
    assert Holds(either, m) <==> True(m, toks[1]) || True(m, toks[3]);
    ParserDecidesGrammar(toks, tree);
  }

  /** A quantifier, `of` and a pattern ask about the selections that the pattern picks. */
  lemma {:induction false} OfConditionMeans(toks: seq<string>, m: map<string, bool>)
    requires |toks| == 3 && IsQuant(toks[0]) && Folds(toks[1], "of")
    ensures ParseTokens(toks) == Tree(Of(ToLower(toks[0]), toks[2]))
  {
    hide IsQuant, Folds, ParseTokens, ToLower;
    var tree := Of(ToLower(toks[0]), toks[2]);
    assert AtomSpan(toks, 0, 3, tree);
    Weaken(3, 0, toks, 0, 3, tree);
    ParserDecidesGrammar(toks, tree);
  }

  // ---------------------------------------------------------------- what is refused

  lemma NameReads(toks: seq<string>, i: nat)
    requires i < |toks| && IsName(toks[i])
    ensures NotFrom(toks, i) == Ok(Sel(toks[i]), i + 1)
  {
    hide IsQuant, Folds;
  }

  lemma NothingJoins(toks: seq<string>, i: nat)
    requires i < |toks| && IsName(toks[i])
    requires !Folds(Peek(toks, i + 1), "and") && !Folds(Peek(toks, i + 1), "or")
    ensures OrFrom(toks, i) == Ok(Sel(toks[i]), i + 1)
  {
    NameReads(toks, i);
    hide IsName, Folds;
    assert AndFrom(toks, i) == Ok(Sel(toks[i]), i + 1);
  }

  /** A condition that has nothing to read is refused as ended. */
  lemma NothingIsRefused(toks: seq<string>)
    requires toks == []
    ensures ParseTokens(toks) == Rejected(UnexpectedEnd)
  {
    KeywordsAreNotQuantifiers("");
    hide IsQuant, Folds;
    assert NotFrom(toks, 0) == Err(UnexpectedEnd);
    assert AndFrom(toks, 0) == Err(UnexpectedEnd);
  }

  /** One that begins with a quantifier wants `of` after it. */
  lemma QuantifierWantsOf(toks: seq<string>)
    requires toks != [] && IsQuant(toks[0]) && !Folds(Peek(toks, 1), "of")
    ensures ParseTokens(toks) == Rejected(ExpectedOf)
  {
    NegationIsNotQuantifier(toks[0]);
    KeywordsAreNotQuantifiers("(");
    hide IsQuant, Folds;
    assert AtomFrom(toks, 0) == Err(ExpectedOf);
    assert NotFrom(toks, 0) == Err(ExpectedOf);
    assert AndFrom(toks, 0) == Err(ExpectedOf);
  }

  /** An open parenthesis wants to be closed after what it holds. */
  lemma ParenthesisWantsClose(toks: seq<string>)
    requires |toks| >= 2 && toks[0] == "(" && IsName(toks[1]) && Peek(toks, 2) != ")"
    requires !Folds(Peek(toks, 2), "and") && !Folds(Peek(toks, 2), "or")
    ensures ParseTokens(toks) == Rejected(MissingParen)
  {
    NothingJoins(toks, 1);
    KeywordsAreNotQuantifiers("(");
    hide IsQuant, Folds, IsName;
    assert AtomFrom(toks, 0) == Err(MissingParen);
    assert NotFrom(toks, 0) == Err(MissingParen);
    assert AndFrom(toks, 0) == Err(MissingParen);
  }

  /** What follows a complete condition is refused. */
  lemma RestIsRefused(toks: seq<string>)
    requires |toks| >= 2 && IsName(toks[0]) && !Folds(toks[1], "and") && !Folds(toks[1], "or")
    ensures ParseTokens(toks) == Rejected(UnexpectedToken)
  {
    NothingJoins(toks, 0);
  }

  // ---------------------------------------------------------------- the tokens of a text

  lemma {:induction false} WordBeforeSpace(x: string, c: char, y: string)
    requires IsSpace(c) && x != "" && !IsSpace(x[0])
    ensures WordLength(x + [c] + y) == WordLength(x)
  {
    assert (x + [c] + y)[1..] == x[1..] + [c] + y;
    if |x| > 1 && !IsSpace(x[1]) {
      WordBeforeSpace(x[1..], c, y);
    } else if |x| == 1 {
      assert x[1..] + [c] + y == [c] + y;
    }
  }

  lemma {:induction false} FieldsAtSpace(x: string, c: char, y: string)
    requires IsSpace(c)
    ensures Fields(x + [c] + y) == Fields(x) + Fields(y)
    decreases |x|
  {
    var s := x + [c] + y;
    if x == "" {
      assert s[1..] == y;
    } else if IsSpace(x[0]) {
      assert s[1..] == x[1..] + [c] + y;
      FieldsAtSpace(x[1..], c, y);
    } else {
      WordBeforeSpace(x, c, y);
      var n := WordLength(x);
      assert s[..n] == x[..n] && s[n..] == x[n..] + [c] + y;
      FieldsAtSpace(x[n..], c, y);
    }
  }

  /** A blank divides a text: its tokens are those before the blank and those after it. */
  lemma TokenizeAtSpace(a: string, c: char, b: string)
    requires IsSpace(c)
    ensures Tokenize(a + [c] + b) == Tokenize(a) + Tokenize(b)
  {
    PadConcat(a + [c], b);
    PadConcat(a, [c]);
    assert Pad([c]) == [c] by {
      PadWord([c]);
    }
    FieldsAtSpace(Pad(a), c, Pad(b));
  }

  /** So does a parenthesis, which is a token itself, blanks around it or not. */
  lemma TokenizeAtParen(a: string, c: char, b: string)
    requires c == '(' || c == ')'
    ensures Tokenize(a + [c] + b) == Tokenize(a) + [[c]] + Tokenize(b)
  {
    PadConcat(a + [c], b);
    PadConcat(a, [c]);
    PadParen(c);
    hide Pad, Fields, IsSpace;
    ParenApart(Pad(a), c, Pad(b));
  }

  lemma PadParen(c: char)
    requires c == '(' || c == ')'
    ensures Pad([c]) == [' '] + [c] + [' ']
  {
    assert [c][1..] == "";
    assert Pad([c]) == PadChar(c) + "";
  }

  lemma Reassociate<T>(a: seq<T>, b: seq<T>, c: seq<T>, d: seq<T>, e: seq<T>)
    ensures a + (b + c + d) + e == a + b + (c + d + e)
  {
  }

  lemma ParenApart(x: string, c: char, y: string)
    requires c == '(' || c == ')'
    ensures Fields(x + ([' '] + [c] + [' ']) + y) == Fields(x) + [[c]] + Fields(y)
  {
    FieldsOne([c]);
    hide Fields;
    Reassociate(x, [' '], [c], [' '], y);
    FieldsAtSpace(x, ' ', [c] + [' '] + y);
    FieldsAtSpace([c], ' ', y);
  }

  lemma FieldsOne(w: string)
    requires w != "" && forall i :: 0 <= i < |w| ==> !IsSpace(w[i])
    ensures Fields(w) == [w]
  {
    WordLengthOf(w, "");
    hide IsSpace;
    assert w + "" == w && w[..|w|] == w && w[|w|..] == "";
    assert Fields("") == [];
  }

  /** A word without blanks and parentheses is one token. */
  lemma TokenizeWord(w: string)
    requires w != "" && forall i :: 0 <= i < |w| ==> !IsSpace(w[i]) && w[i] != '(' && w[i] != ')'
    ensures Tokenize(w) == [w]
  {
    PadWord(w);
    FieldsOne(w);
  }
}
