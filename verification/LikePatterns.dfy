/** What the ILIKE patterns of the query compiler match: `backend/app/connectors/registry.py`,
    lines 229-236.

    In a pattern `%` stands for any text, `_` for one character, and a backslash takes the
    meaning from `%`, `_` or a backslash after it.  The compiler writes `%` for `*` and leaves
    everything else as it is. */
module LikePatterns {

  /** How characters compare: case is ignored in some way that keeps the marks of a pattern
      apart. */
  type Folding = char -> char

  ghost predicate KeepsMarks(fold: Folding) {
    fold('%') != fold('_') && fold('%') != fold('\\') && fold('_') != fold('\\')
  }

  predicate IsMark(c: char) {
    c == '%' || c == '_' || c == '\\'
  }

  /** Whether a pattern matches a whole value; one that ends in a lone backslash is refused by
      the database, and matches nothing here. */
  predicate Like(p: string, v: string, fold: Folding)
    decreases |p|, |v|
  {
    if p == "" then v == ""
    else if p[0] == '%' then Like(p[1..], v, fold) || (v != "" && Like(p, v[1..], fold))
    else if p[0] == '_' then v != "" && Like(p[1..], v[1..], fold)
    else if p[0] == '\\' && |p| == 1 then false
    else if p[0] == '\\' && IsMark(p[1]) then v != "" && fold(p[1]) == fold(v[0]) && Like(p[2..], v[1..], fold)
    else v != "" && fold(p[0]) == fold(v[0]) && Like(p[1..], v[1..], fold)
  }

  // ---------------------------------------------------------------- what is meant

  /** A search text: any text where a star stands, and otherwise its own characters. */
  datatype Item = Star | Literal(c: char)

  predicate Finds(items: seq<Item>, v: string, fold: Folding)
    decreases |items|, |v|
  {
    if items == [] then v == ""
    else
      match items[0]
      case Star => Finds(items[1..], v, fold) || (v != "" && Finds(items, v[1..], fold))
      case Literal(c) => v != "" && fold(c) == fold(v[0]) && Finds(items[1..], v[1..], fold)
  }

  /** The pattern written for it. */
  function Pattern(items: seq<Item>): string {
    if items == [] then ""
    else [if items[0].Star? then '%' else items[0].c] + Pattern(items[1..])
  }

  /** No `%` and no `_` is meant, and every backslash is followed by a character that is none of
      the marks. */
  predicate Unmarked(items: seq<Item>) {
    items != [] ==>
      && Unmarked(items[1..])
      && (items[0].Literal? ==>
            && items[0].c != '%' && items[0].c != '_'
            && (items[0].c == '\\' ==> |items| > 1 && items[1].Literal? && !IsMark(items[1].c)))
  }

  // ---------------------------------------------------------------- unmarked patterns

  lemma PatternFirst(items: seq<Item>)
    requires items != []
    ensures Pattern(items)[0] == (if items[0].Star? then '%' else items[0].c) &&
        Pattern(items)[1..] == Pattern(items[1..])
    ensures |Pattern(items)| > 1 <==> |items| > 1
    ensures |items| > 1 ==> Pattern(items)[1] == if items[1].Star? then '%' else items[1].c
  {
    assert Pattern(items)[1..] == Pattern(items[1..]);
  }

  lemma {:induction false} UnmarkedFinds(items: seq<Item>, v: string, fold: Folding)
    requires Unmarked(items)
    ensures Like(Pattern(items), v, fold) <==> Finds(items, v, fold)
    decreases |items|, |v|
  {
    if items != [] {
      PatternFirst(items);
      UnmarkedFinds(items[1..], if items[0].Star? || v == "" then v else v[1..], fold);
      if items[0].Star? && v != "" {
        UnmarkedFinds(items, v[1..], fold);
      }
      hide Pattern;
    }
  }

  // ---------------------------------------------------------------- marked patterns

  /** A short value the pattern matches: nothing for `%`, a character for `_`, and the escaped
      character for an escape. */
  function Sample(p: string): string
    decreases |p|
  {
    if p == "" then ""
    else if p[0] == '%' then Sample(p[1..])
    else if p[0] == '_' then "%" + Sample(p[1..])
    else if p[0] == '\\' && |p| == 1 then ""
    else if p[0] == '\\' && IsMark(p[1]) then [p[1]] + Sample(p[2..])
    else [p[0]] + Sample(p[1..])
  }

  /** The pattern does not end in a lone backslash. */
  predicate Complete(p: string)
    decreases |p|
  {
    if p == "" then true
    else if p[0] == '\\' then |p| > 1 && Complete(if IsMark(p[1]) then p[2..] else p[1..])
    else Complete(p[1..])
  }

  lemma {:induction false} SampleMatches(p: string, fold: Folding)
    requires Complete(p)
    ensures Like(p, Sample(p), fold)
    decreases |p|
  {
    if p != "" {
      if p[0] == '\\' {
        var rest := if IsMark(p[1]) then p[2..] else p[1..];
        SampleMatches(rest, fold);
        assert ([if IsMark(p[1]) then p[1] else p[0]] + Sample(rest))[1..] == Sample(rest);
      } else {
        SampleMatches(p[1..], fold);
        if p[0] != '%' {
          var c := if p[0] == '_' then '%' else p[0];
          assert Sample(p) == [c] + Sample(p[1..]) && Sample(p)[1..] == Sample(p[1..]);
        }
      }
    }
  }

  lemma {:induction false} IncompleteMatchesNothing(p: string, v: string, fold: Folding)
    requires !Complete(p)
    ensures !Like(p, v, fold)
    decreases |p|, |v|
  {
    if p[0] == '\\' {
      if |p| > 1 && v != "" {
        IncompleteMatchesNothing(if IsMark(p[1]) then p[2..] else p[1..], v[1..], fold);
      }
    } else {
      if p[0] == '%' {
        IncompleteMatchesNothing(p[1..], v, fold);
      }
      if v != "" {
        IncompleteMatchesNothing(if p[0] == '%' then p else p[1..], v[1..], fold);
      }
    }
  }

  /** The literals of a search text: the shortest value it finds. */
  function Literals(items: seq<Item>): string {
    if items == [] then ""
    else (if items[0].Star? then "" else [items[0].c]) + Literals(items[1..])
  }

  lemma {:induction false} LiteralsAreFound(items: seq<Item>, fold: Folding)
    ensures Finds(items, Literals(items), fold)
  {
    if items != [] {
      LiteralsAreFound(items[1..], fold);
      if items[0].Star? {
        assert Literals(items) == Literals(items[1..]);
      } else {
        assert Literals(items)[1..] == Literals(items[1..]);
      }
    }
  }

  /** Character by character alike. */
  predicate Alike(a: string, b: string, fold: Folding) {
    |a| == |b| && forall i :: 0 <= i < |a| ==> fold(a[i]) == fold(b[i])
  }

  /** What is found has the literals at least, and no more only if it is like them. */
  lemma {:induction false} FoundIsLonger(items: seq<Item>, v: string, fold: Folding)
    requires Finds(items, v, fold)
    ensures |v| > |Literals(items)| || Alike(Literals(items), v, fold)
    decreases |items|, |v|
  {
    if items != [] {
      if items[0].Star? {
        if Finds(items[1..], v, fold) {
          FoundIsLonger(items[1..], v, fold);
        } else {
          FoundIsLonger(items, v[1..], fold);
        }
      } else {
        FoundIsLonger(items[1..], v[1..], fold);
        assert Literals(items) == [items[0].c] + Literals(items[1..]);
        assert v == [v[0]] + v[1..];
      }
    }
  }

  lemma AlikeFirst(a: char, x: string, b: char, y: string, fold: Folding)
    requires Alike([a] + x, [b] + y, fold)
    ensures fold(a) == fold(b) && Alike(x, y, fold)
  {
    assert ([a] + x)[0] == a && ([b] + y)[0] == b;
    forall i | 0 <= i < |x|
      ensures fold(x[i]) == fold(y[i])
    {
      assert ([a] + x)[i + 1] == x[i] && ([b] + y)[i + 1] == y[i];
    }
  }

  lemma AlikeCons(a: char, x: string, b: char, y: string, fold: Folding)
    ensures Alike([a] + x, [b] + y, fold) <==> fold(a) == fold(b) && Alike(x, y, fold)
  {
    if Alike([a] + x, [b] + y, fold) {
      AlikeFirst(a, x, b, y, fold);
    }
  }

  /** The sample of a pattern is no longer than what is meant, and unlike it if the pattern is
      marked. */
  lemma {:induction false} SampleIsNotMeant(items: seq<Item>, fold: Folding)
    requires KeepsMarks(fold) && Complete(Pattern(items))
    ensures |Sample(Pattern(items))| <= |Literals(items)|
    ensures Alike(Literals(items), Sample(Pattern(items)), fold) ==> Unmarked(items)
    decreases |items|
  {
    if items != [] {
      PatternFirst(items);
      if items[0] == Literal('\\') {
        EscapeIsNotMeant(items, fold);
      } else {
        SampleIsNotMeant(items[1..], fold);
        var c, lit, sample := Pattern(items)[0], Literals(items[1..]), Sample(Pattern(items[1..]));
        hide Alike, Pattern;
        if items[0].Star? {
          assert Literals(items) == lit && Sample(Pattern(items)) == sample;
        } else if c == '%' {
          UnlikeLength(Literals(items), Sample(Pattern(items)), fold);
        } else if c == '_' {
          UnlikeFirst(c, lit, '%', sample, fold);
        } else if Alike(Literals(items), Sample(Pattern(items)), fold) {
          AlikeFirst(c, lit, c, sample, fold);
        }
      }
    }
  }

  lemma UnlikeLength(a: string, b: string, fold: Folding)
    requires |a| != |b|
    ensures !Alike(a, b, fold)
  {
  }

  lemma UnlikeFirst(a: char, x: string, b: char, y: string, fold: Folding)
    requires fold(a) != fold(b)
    ensures !Alike([a] + x, [b] + y, fold)
  {
    assert ([a] + x)[0] == a && ([b] + y)[0] == b;
  }

  lemma {:induction false} EscapeIsNotMeant(items: seq<Item>, fold: Folding)
    requires KeepsMarks(fold) && Complete(Pattern(items)) && items != [] && items[0] == Literal('\\')
    ensures |Sample(Pattern(items))| <= |Literals(items)|
    ensures Alike(Literals(items), Sample(Pattern(items)), fold) ==> Unmarked(items)
    decreases |items|, 0
  {
    PatternFirst(items);
    PatternFirst(items[1..]);
    var p, next := Pattern(items), Pattern(items)[1];
    if IsMark(next) {
      SampleIsNotMeant(items[2..], fold);
      assert p[2..] == p[1..][1..] && items[2..] == items[1..][1..];
      var lit, sample := Literals(items[2..]), Sample(Pattern(items[2..]));
      hide Alike, Pattern;
      assert Sample(p) == [next] + sample;
      assert |Literals(items[1..])| == |lit| + if items[1].Star? then 0 else 1;
      if items[1].Star? {
        UnlikeFirst('\\', Literals(items[1..]), next, sample, fold);
      } else {
        UnlikeLength(Literals(items), Sample(p), fold);
      }
    } else {
      SampleIsNotMeant(items[1..], fold);
      var lit, sample := Literals(items[1..]), Sample(Pattern(items[1..]));
      assert Literals(items) == ['\\'] + lit && Sample(p) == ['\\'] + sample;
      hide Alike, Pattern;
      if Alike(Literals(items), Sample(p), fold) {
        AlikeFirst('\\', lit, '\\', sample, fold);
      }
    }
  }

  lemma MarkedDiffers(items: seq<Item>, fold: Folding) returns (v: string)
    requires KeepsMarks(fold) && !Unmarked(items)
    ensures Like(Pattern(items), v, fold) != Finds(items, v, fold)
  {
    hide Like, Finds, Pattern, Unmarked, KeepsMarks;
    if Complete(Pattern(items)) {
      v := Sample(Pattern(items));
      SampleMatches(Pattern(items), fold);
      SampleIsNotMeant(items, fold);
      if Finds(items, v, fold) {
        FoundIsLonger(items, v, fold);
      }
    } else {
      v := Literals(items);
      LiteralsAreFound(items, fold);
      IncompleteMatchesNothing(Pattern(items), v, fold);
    }
  }

  /** The pattern matches exactly the values that are meant, for all values, exactly when the
      text holds no `%`, no `_`, and no backslash before a mark or at its end. */
  lemma {:induction false} PatternMeansIffUnmarked(items: seq<Item>, fold: Folding)
    requires KeepsMarks(fold)
    ensures (forall v :: Like(Pattern(items), v, fold) <==> Finds(items, v, fold)) <==> Unmarked(items)
  {
    hide Like, Finds, Pattern, Unmarked, KeepsMarks;
    if Unmarked(items) {
      forall v
        ensures Like(Pattern(items), v, fold) <==> Finds(items, v, fold)
      {
        UnmarkedFinds(items, v, fold);
      }
    } else {
      var v := MarkedDiffers(items, fold);
      assert Like(Pattern(items), v, fold) != Finds(items, v, fold);
    }
  }

  // ---------------------------------------------------------------- containing a text

  function Chars(text: string): (r: seq<Item>)
    ensures |r| == |text| && forall i :: 0 <= i < |r| ==> r[i] == Literal(text[i])
  {
    seq(|text|, i requires 0 <= i < |text| => Literal(text[i]))
  }

  function Containing(text: string): seq<Item> {
    [Star] + Chars(text) + [Star]
  }

  predicate At(v: string, i: nat, text: string, fold: Folding) {
    i + |text| <= |v| && Alike(text, v[i..i + |text|], fold)
  }

  ghost predicate Contains(v: string, text: string, fold: Folding) {
    exists i: nat :: At(v, i, text, fold)
  }

  /** No `%`, no `_`, and after a backslash a character that is none of the marks, nor a star if
      stars are rewritten. */
  predicate PlainAt(s: string, i: nat, stars: bool)
    requires i < |s|
  {
    && s[i] != '%' && s[i] != '_'
    && (s[i] == '\\' ==> i + 1 < |s| && !IsMark(s[i + 1]) && !(stars && s[i + 1] == '*'))
  }

  predicate Plain(s: string, stars: bool) {
    forall i: nat :: i < |s| ==> PlainAt(s, i, stars)
  }

  lemma PlainTail(s: string, stars: bool)
    requires s != ""
    ensures Plain(s, stars) <==> PlainAt(s, 0, stars) && Plain(s[1..], stars)
  {
    var t := s[1..];
    forall i: nat | i < |t|
      ensures PlainAt(t, i, stars) <==> PlainAt(s, i + 1, stars)
    {
      assert t[i] == s[i + 1] && (i + 1 < |t| ==> t[i + 1] == s[i + 2]);
    }
    if PlainAt(s, 0, stars) && Plain(t, stars) {
      forall i: nat | i < |s|
        ensures PlainAt(s, i, stars)
      {
        if i > 0 {
          assert PlainAt(t, i - 1, stars);
        }
      }
    }
  }

  lemma {:induction false} PatternOfText(text: string)
    ensures Pattern(Chars(text) + [Star]) == text + "%"
  {
    var items := Chars(text) + [Star];
    if text == "" {
      assert items == [Star] && Pattern(items[1..]) == "";
    } else {
      PatternOfText(text[1..]);
      assert items[1..] == Chars(text[1..]) + [Star];
      assert text + "%" == [text[0]] + (text[1..] + "%");
    }
  }

  lemma {:induction false} UnmarkedText(text: string)
    ensures Unmarked(Chars(text) + [Star]) <==> Plain(text, false)
  {
    var items := Chars(text) + [Star];
    if text == "" {
      assert items == [Star] && items[1..] == [];
    } else {
      UnmarkedText(text[1..]);
      assert items[1..] == Chars(text[1..]) + [Star];
      assert |text| > 1 ==> items[1] == Literal(text[1]);
      PlainTail(text, false);
    }
  }

  lemma AtCons(text: string, v: string, fold: Folding)
    requires text != "" && v != ""
    ensures At(v, 0, text, fold) <==> fold(text[0]) == fold(v[0]) && At(v[1..], 0, text[1..], fold)
  {
    hide Alike;
    if |text| <= |v| {
      AlikeCons(text[0], text[1..], v[0], v[1..][0..|text| - 1], fold);
      assert v[0..|text|] == [v[0]] + v[1..][0..|text| - 1] && text == [text[0]] + text[1..];
    }
  }

  lemma {:induction false} FindsPrefix(text: string, v: string, fold: Folding)
    ensures Finds(Chars(text) + [Star], v, fold) <==> At(v, 0, text, fold)
    decreases |text|
  {
    var items := Chars(text) + [Star];
    if text == "" {
      assert items == [Star];
      FindsAnything(v, fold);
    } else {
      assert items[0] == Literal(text[0]) && items[1..] == Chars(text[1..]) + [Star];
      if v != "" {
        FindsPrefix(text[1..], v[1..], fold);
        AtCons(text, v, fold);
        hide At, Chars;
      }
    }
  }

  lemma {:induction false} FindsAnything(v: string, fold: Folding)
    ensures Finds([Star], v, fold)
  {
    if v != "" {
      FindsAnything(v[1..], fold);
    }
  }

  lemma {:induction false} FindsContained(text: string, v: string, fold: Folding)
    ensures Finds(Containing(text), v, fold) <==> Contains(v, text, fold)
    decreases |v|
  {
    var items := Containing(text);
    assert items == [Star] + (Chars(text) + [Star]) && items[1..] == Chars(text) + [Star];
    FindsPrefix(text, v, fold);
    hide At;
    if v != "" {
      FindsContained(text, v[1..], fold);
      if i: nat :| At(v[1..], i, text, fold) {
        AtLater(v, i, text, fold);
      }
      if i: nat :| At(v, i, text, fold) && i > 0 {
        AtLater(v, i - 1, text, fold);
      }
    } else {
      AtEmpty(text, fold);
    }
  }

  lemma AtLater(v: string, i: nat, text: string, fold: Folding)
    requires v != ""
    ensures At(v[1..], i, text, fold) <==> At(v, i + 1, text, fold)
  {
    if i + 1 + |text| <= |v| {
      assert v[1..][i..i + |text|] == v[i + 1..i + 1 + |text|];
    }
  }

  lemma AtEmpty(text: string, fold: Folding)
    ensures forall i: nat :: At("", i, text, fold) ==> i == 0
  {
  }

  /** Matching the pattern around a text means containing the text, for every value, exactly
      when the text is plain. */
  lemma {:induction false} SearchMeansContainsIffPlain(text: string, fold: Folding)
    requires KeepsMarks(fold)
    ensures (forall v :: Like("%" + text + "%", v, fold) <==> Contains(v, text, fold)) <==> Plain(text, false)
  {
    var items := Containing(text);
    assert items == [Star] + (Chars(text) + [Star]) && items[1..] == Chars(text) + [Star];
    PatternOfText(text);
    UnmarkedText(text);
    assert Pattern(items) == "%" + text + "%" by {
      assert "%" + (text + "%") == "%" + text + "%";
    }
    PatternMeansIffUnmarked(items, fold);
    hide Like, Contains, Finds, Pattern, Containing;
    forall v
      ensures Finds(items, v, fold) <==> Contains(v, text, fold)
    {
      FindsContained(text, v, fold);
    }
  }

  /** An underscore finds any character. */
  lemma UnderscoreFindsMore(fold: Folding)
    requires fold('X') != fold('_')
    ensures Like("%a_b%", "aXb", fold) && !Contains("aXb", "a_b", fold)
  {
    assert "%a_b%"[1..] == "a_b%" && "a_b%"[1..] == "_b%" && "_b%"[1..] == "b%" && "b%"[1..] == "%" && "%"[1..] == "";
    assert "aXb"[1..] == "Xb" && "Xb"[1..] == "b" && "b"[1..] == "";
    assert Like("%", "", fold) && Like("b%", "b", fold) && Like("_b%", "Xb", fold) && Like("a_b%", "aXb", fold);
    forall i: nat
      ensures !At("aXb", i, "a_b", fold)
    {
      assert "aXb"[0..3] == "aXb" && "a_b"[1] == '_' && "aXb"[1] == 'X';
    }
  }

  // ---------------------------------------------------------------- stars

  function ItemsOf(val: string): (r: seq<Item>)
    ensures |r| == |val| && forall i :: 0 <= i < |r| ==> r[i] == if val[i] == '*' then Star else Literal(val[i])
  {
    seq(|val|, i requires 0 <= i < |val| => if val[i] == '*' then Star else Literal(val[i]))
  }

  lemma {:induction false} UnmarkedGlob(val: string)
    ensures Unmarked(ItemsOf(val)) <==> Plain(val, true)
  {
    if val != "" {
      UnmarkedGlob(val[1..]);
      assert ItemsOf(val)[1..] == ItemsOf(val[1..]);
      PlainTail(val, true);
    }
  }
}
