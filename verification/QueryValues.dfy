/** What the operands of a compiled query denote: numbers, times relative to now, and the
    terms of a query string.  `QueryMeaning` proves that the text means what the tree means
    for any reading of single comparisons; here the comparisons are read as numbers and
    times, and ranges turn out to be intervals. */
module QueryValues {
  import opened Wrappers
  import opened Texts
  import opened SqlText
  import opened QueryCompiler
  import opened LikePatterns
  import QueryMeaning

  // ---------------------------------------------------------------- numbers

  function Digit(c: char): int {
    if IsDigit(c) then c as int - '0' as int else 0
  }

  function Whole(s: string): int {
    if s == "" then 0 else 10 * Whole(s[..|s| - 1]) + Digit(s[|s| - 1])
  }

  function Tenths(s: string): real {
    if s == "" then 0.0 else (Digit(s[0]) as real + Tenths(s[1..])) / 10.0
  }

  function Magnitude(s: string): real {
    var n := DigitRun(s);
    Whole(s[..n]) as real + if n < |s| then Tenths(s[n + 1..]) else 0.0
  }

  /** The number that a decimal numeral denotes. */
  function Decimal(text: string): real {
    if text != "" && text[0] == '-' then -Magnitude(text[1..]) else Magnitude(text)
  }

  function NumberOf(v: Scalar): real
    requires !v.TextV?
  {
    match v
    case BoolV(b) => if b then 1.0 else 0.0
    case NumberV(text) => Decimal(text)
  }

  predicate Compares(v: real, op: CmpOp, x: real) {
    match op
    case Eq => v == x
    case Ge => v >= x
    case Gt => v > x
    case Le => v <= x
    case Lt => v < x
    case Ilike => false
  }

  /** The column holds the number v, and SQL compares it with numeric literals. */
  ghost predicate NumberColumn(row: Row, col: string, v: real) {
    forall op: CmpOp, neg, digits :: !op.Ilike? ==>
      (row.cmp(col, op, Constant(Number(neg, digits))) <==>
       Compares(v, op, if neg then -Magnitude(digits) else Magnitude(digits)))
  }

  /** The bound of a range as the query language defines it. */
  predicate Within(v: real, bound: string, x: real) {
    && (bound == "gte" ==> x <= v)
    && (bound == "gt" ==> x < v)
    && (bound == "lte" ==> v <= x)
    && (bound == "lt" ==> v < x)
  }

  lemma OneDigit(c: char)
    requires IsDigit(c)
    ensures Magnitude([c]) == Digit(c) as real
  {
    assert DigitRun([c]) == 1 + DigitRun([c][1..]);
    assert [c][..1] == [c] && Whole([]) == 0 && [c][..0] == [];
  }

  lemma LiteralCompares(row: Row, col: string, v: real, op: CmpOp, x: Scalar)
    requires NumberColumn(row, col, v) && !op.Ilike? && !x.TextV?
    ensures row.cmp(col, op, Constant(LitOf(x))) <==> Compares(v, op, NumberOf(x))
  {
    match x
    case BoolV(b) =>
      OneDigit('0');
      OneDigit('1');
      assert "1" == ['1'] && "0" == ['0'];
    case NumberV(text) =>
  }

  lemma BoundCompares(row: Row, col: string, v: real, b: Bound, rhs: Operand, x: real)
    requires forall op: CmpOp :: !op.Ilike? ==> (row.cmp(col, op, rhs) <==> Compares(v, op, x))
    ensures (RangeOp(b.op).Some? ==> row.cmp(col, RangeOp(b.op).value, rhs)) <==> Within(v, b.op, x)
  {
  }

  /** On a numeric column a range holds of exactly the rows whose value lies within its
      bounds; a bound with another name says nothing. */
  lemma {:induction false} RangeIsInterval(t: Table, field: string, bounds: seq<Bound>, row: Row, v: real)
    requires ValidTable(t) && field in t.fields && t.fields[field] != "timestamp"
    requires NumberColumn(row, t.fields[field], v) && forall b :: b in bounds ==> !b.value.TextV?
    ensures ClauseText(t, Range(field, bounds)).Success? && ParseSql(ClauseText(t, Range(field, bounds)).value).Some?
    ensures Holds(ParseSql(ClauseText(t, Range(field, bounds)).value).value, row) <==>
      forall b :: b in bounds ==> Within(v, b.op, NumberOf(b.value))
  {
    hide ParseSql, ClauseText, Holds, RangeOp, LitOf, NumberOf, Within, NumberColumn, Compares;
    var col := t.fields[field];
    QueryMeaning.ClauseMeansQuery(t, Range(field, bounds));
    forall b | b in bounds
      ensures (RangeOp(b.op).Some? ==> row.cmp(col, RangeOp(b.op).value, BoundOperand(col, b.value)))
         <==> Within(v, b.op, NumberOf(b.value))
    {
      forall op: CmpOp | !op.Ilike?
        ensures row.cmp(col, op, Constant(LitOf(b.value))) <==> Compares(v, op, NumberOf(b.value))
      {
        LiteralCompares(row, col, v, op, b.value);
      }
      BoundCompares(row, col, v, b, Constant(LitOf(b.value)), NumberOf(b.value));
    }
  }

  // ---------------------------------------------------------------- texts compared with a column

  lemma {:induction false} ListedTexts(vs: seq<Scalar>, xs: seq<string>)
    requires |vs| == |xs| && forall i :: 0 <= i < |xs| ==> vs[i] == TextV(xs[i])
    ensures forall x :: x in xs <==> TextV(x) in vs
    ensures forall v :: v in vs ==> v.TextV? && v.s in xs
  {
    forall x | x in xs
      ensures TextV(x) in vs
    {
      var i :| 0 <= i < |xs| && xs[i] == x;
      assert vs[i] == TextV(x);
    }
  }

  /** A term with a text holds of exactly the rows whose column holds that very text. */
  lemma {:induction false} TextTermMeans(t: Table, field: string, s: string, row: Row, v: string)
    requires ValidTable(t) && field in t.fields && t.fields[field] !in t.arrays
    requires forall x :: row.cmp(t.fields[field], Eq, Constant(Quoted(x))) <==> v == x
    ensures ClauseText(t, Term(field, TextV(s))).Success?
    ensures ParseSql(ClauseText(t, Term(field, TextV(s))).value).Some?
    ensures Holds(ParseSql(ClauseText(t, Term(field, TextV(s))).value).value, row) <==> v == s
  {
    hide ParseSql, ClauseText, Holds;
    QueryMeaning.ClauseMeansQuery(t, Term(field, TextV(s)));
  }

  /** On an array column it holds of those whose array has the text among its elements. */
  lemma {:induction false} ArrayTermMeans(t: Table, field: string, s: string, row: Row, held: set<string>)
    requires ValidTable(t) && field in t.fields && t.fields[field] in t.arrays
    requires forall x :: row.has(t.fields[field], Quoted(x)) <==> x in held
    ensures ClauseText(t, Term(field, TextV(s))).Success?
    ensures ParseSql(ClauseText(t, Term(field, TextV(s))).value).Some?
    ensures Holds(ParseSql(ClauseText(t, Term(field, TextV(s))).value).value, row) <==> s in held
  {
    hide ParseSql, ClauseText, Holds;
    QueryMeaning.ClauseMeansQuery(t, Term(field, TextV(s)));
  }

  /** A list of texts holds of exactly the rows whose column holds one of them. */
  lemma {:induction false} TextTermsMean(t: Table, field: string, vs: seq<Scalar>, xs: seq<string>, row: Row, v: string)
    requires ValidTable(t) && field in t.fields && t.fields[field] !in t.arrays && xs != []
    requires |vs| == |xs| && forall i :: 0 <= i < |xs| ==> vs[i] == TextV(xs[i])
    requires forall x :: row.cmp(t.fields[field], Eq, Constant(Quoted(x))) <==> v == x
    ensures ClauseText(t, Terms(field, vs)).Success? && ParseSql(ClauseText(t, Terms(field, vs)).value).Some?
    ensures Holds(ParseSql(ClauseText(t, Terms(field, vs)).value).value, row) <==> v in xs
  {
    hide ParseSql, ClauseText, Holds;
    QueryMeaning.ClauseMeansQuery(t, Terms(field, vs));
    ListedTexts(vs, xs);
  }

  /** On an array column, of those whose array has one of them. */
  lemma {:induction false} ArrayTermsMean(t: Table, field: string, vs: seq<Scalar>, xs: seq<string>, row: Row,
                                          held: set<string>)
    requires ValidTable(t) && field in t.fields && t.fields[field] in t.arrays
    requires |vs| == |xs| && forall i :: 0 <= i < |xs| ==> vs[i] == TextV(xs[i])
    requires forall x :: row.has(t.fields[field], Quoted(x)) <==> x in held
    ensures ClauseText(t, Terms(field, vs)).Success? && ParseSql(ClauseText(t, Terms(field, vs)).value).Some?
    ensures Holds(ParseSql(ClauseText(t, Terms(field, vs)).value).value, row) <==> exists x :: x in xs && x in held
  {
    hide ParseSql, ClauseText, Holds;
    QueryMeaning.ClauseMeansQuery(t, Terms(field, vs));
    ListedTexts(vs, xs);
  }

  /** A list of ids holds of exactly the alerts with one of them. */
  lemma {:induction false} IdsMean(t: Table, vs: seq<Scalar>, xs: seq<string>, row: Row, id: string)
    requires ValidTable(t) && xs != []
    requires |vs| == |xs| && forall i :: 0 <= i < |xs| ==> vs[i] == TextV(xs[i])
    requires forall x :: row.cmp("alert_id", Eq, Constant(Quoted(x))) <==> id == x
    ensures ClauseText(t, Ids(vs)).Success? && ParseSql(ClauseText(t, Ids(vs)).value).Some?
    ensures Holds(ParseSql(ClauseText(t, Ids(vs)).value).value, row) <==> id in xs
  {
    hide ParseSql, ClauseText, Holds;
    QueryMeaning.ClauseMeansQuery(t, Ids(vs));
    ListedTexts(vs, xs);
  }

  /** On a column of numbers a Boolean or a number holds of exactly the rows with that number. */
  lemma {:induction false} NumberTermMeans(t: Table, field: string, x: Scalar, row: Row, v: real)
    requires ValidTable(t) && field in t.fields && t.fields[field] !in t.arrays && !x.TextV?
    requires NumberColumn(row, t.fields[field], v)
    ensures ClauseText(t, Term(field, x)).Success? && ParseSql(ClauseText(t, Term(field, x)).value).Some?
    ensures Holds(ParseSql(ClauseText(t, Term(field, x)).value).value, row) <==> v == NumberOf(x)
  {
    hide ParseSql, ClauseText, Holds, NumberColumn, LitOf, NumberOf;
    QueryMeaning.ClauseMeansQuery(t, Term(field, x));
    LiteralCompares(row, t.fields[field], v, Eq, x);
  }

  // ---------------------------------------------------------------- times relative to now

  function UnitSeconds(c: char): int {
    match c
    case 's' => 1
    case 'm' => 60
    case 'h' => 3600
    case _ => 86400
  }

  function IntervalSeconds(unit: string): int {
    if unit == "SECOND" then 1
    else if unit == "MINUTE" then 60
    else if unit == "HOUR" then 3600
    else 86400
  }

  /** The time an SQL operand denotes, in seconds, when it is relative to now. */
  function OperandTime(o: Operand, now: int): Option<int> {
    match o
    case Now => Some(now)
    case NowMinus(count, unit) => Some(now - Whole(count) * IntervalSeconds(unit))
    case _ => None
  }

  /** `now`, or `now-` with digits and one of the units s, m, h, d. */
  predicate IsRelative(s: string) {
    s == "now" ||
    (|s| > 5 && s[..4] == "now-" && (forall i :: 4 <= i < |s| - 1 ==> IsDigit(s[i])) &&
        s[|s| - 1] in {'s', 'm', 'h', 'd'})
  }

  function RelativeTime(s: string, now: int): int
    requires IsRelative(s)
  {
    if s == "now" then now else now - Whole(s[4..|s| - 1]) * UnitSeconds(s[|s| - 1])
  }

  lemma {:induction false} AllDigits(s: string, n: nat)
    requires n <= |s| && (n == |s| || !IsDigit(s[n]))
    ensures DigitRun(s) == n <==> forall i :: 0 <= i < n ==> IsDigit(s[i])
  {
    if n > 0 && IsDigit(s[0]) {
      AllDigits(s[1..], n - 1);
      assert forall i :: 0 < i < n ==> s[i] == s[1..][i - 1];
      assert forall i :: 0 <= i < n - 1 ==> s[1..][i] == s[i + 1];
    }
  }

  lemma UnitsAgree(c: char)
    requires c in {'s', 'm', 'h', 'd'}
    ensures IntervalSeconds(Unit(c)) == UnitSeconds(c)
  {
    assert |Unit('s')| == 6 && |Unit('m')| == 6 && |Unit('h')| == 4 && |Unit('d')| == 3;
    assert Unit('s')[0] == 'S' && Unit('m')[0] == 'M';
  }

  /** A time operand denotes the relative time its text states, exactly when the text states
      one; any other text is sent as it is, for the database to read. */
  lemma {:induction false} TimeOperandMeans(v: Scalar, now: int)
    ensures OperandTime(TimeOperand(v), now)
         == if v.TextV? && IsRelative(v.s) then Some(RelativeTime(v.s, now)) else None
    ensures v.TextV? && !IsRelative(v.s) ==> TimeOperand(v) == BestEffort(Quoted(v.s))
    ensures !v.TextV? ==> TimeOperand(v) == BestEffort(LitOf(v))
  {
    if v.TextV? && |v.s| > 5 && v.s[..4] == "now-" {
      var s := v.s;
      hide IntervalSeconds, Unit, UnitSeconds, Whole, DigitRun;
      if s[|s| - 1] in {'s', 'm', 'h', 'd'} {
        AllDigits(s[4..], |s| - 5);
        UnitsAgree(s[|s| - 1]);
        assert forall i :: 4 <= i < |s| - 1 ==> s[i] == s[4..][i - 4];
        assert forall i :: 0 <= i < |s| - 5 ==> s[4..][i] == s[i + 4];
      }
    }
  }

  /** The timestamp column holds the time ts: SQL compares it with times relative to now, and
      with a text as the time that `parse` reads from it. */
  ghost predicate TimeColumn(row: Row, ts: real, now: int, parse: string -> real) {
    && (forall op: CmpOp, o :: !op.Ilike? && OperandTime(o, now).Some? ==>
          (row.cmp("timestamp", op, o) <==> Compares(ts, op, OperandTime(o, now).value as real)))
    && (forall op: CmpOp, s :: !op.Ilike? ==>
          (row.cmp("timestamp", op, BestEffort(Quoted(s))) <==> Compares(ts, op, parse(s))))
  }

  /** A range of texts on the timestamp holds of exactly the rows inside that window: a bound is
      the relative time it states, or else the time that the database reads from its own text. */
  lemma {:induction false} TimeRangeIsWindow(t: Table, field: string, bounds: seq<Bound>, row: Row, ts: real, now: int,
                                             parse: string -> real)
    requires ValidTable(t) && field in t.fields && t.fields[field] == "timestamp" && TimeColumn(row, ts, now, parse)
    requires forall b :: b in bounds ==> b.value.TextV?
    ensures ClauseText(t, Range(field, bounds)).Success? && ParseSql(ClauseText(t, Range(field, bounds)).value).Some?
    ensures Holds(ParseSql(ClauseText(t, Range(field, bounds)).value).value, row) <==>
      forall b :: b in bounds ==>
        Within(ts, b.op, if IsRelative(b.value.s) then RelativeTime(b.value.s, now) as real else parse(b.value.s))
  {
    hide ParseSql, ClauseText, Holds, RangeOp, TimeOperand, OperandTime, RelativeTime, IsRelative, Within, Compares;
    QueryMeaning.ClauseMeansQuery(t, Range(field, bounds));
    forall b | b in bounds
      ensures (RangeOp(b.op).Some? ==> row.cmp("timestamp", RangeOp(b.op).value, BoundOperand("timestamp", b.value)))
         <==> Within(ts, b.op, if IsRelative(b.value.s) then RelativeTime(b.value.s, now) as real else parse(b.value.s))
    {
      var s := b.value.s;
      var x := if IsRelative(s) then RelativeTime(s, now) as real else parse(s);
      TimeOperandMeans(b.value, now);
      BoundCompares(row, "timestamp", ts, b, TimeOperand(b.value), x);
    }
  }

  // ---------------------------------------------------------------- query strings as terms and joiners

  /** Terms with a joiner, and the blanks on both sides of it, before each but the first. */
  datatype Words = Last(word: string) | Then(word: string, lead: string, isOr: bool, trail: string, rest: Words)

  function Joiner(isOr: bool): string {
    if isOr then "OR" else "AND"
  }

  function WordsText(ws: Words): string {
    match ws
    case Last(word) => word
    case Then(word, lead, isOr, trail, rest) => word + (lead + (Joiner(isOr) + (trail + WordsText(rest))))
  }

  function WordsSplit(ws: Words): seq<string> {
    match ws
    case Last(word) => [word]
    case Then(word, _, isOr, _, rest) => [word, Joiner(isOr)] + WordsSplit(rest)
  }

  predicate IsBlanks(s: string) {
    s != "" && forall i :: 0 <= i < |s| ==> IsBlank(s[i])
  }

  predicate Trimmed(w: string) {
    w != "" && !IsBlank(w[0]) && !IsBlank(w[|w| - 1])
  }

  /** No joiner between blanks begins in w, when w is followed by `after`. */
  predicate Unbroken(w: string, after: string) {
    forall i: nat :: i < |w| ==> SeparatorAt(w + after, i).None?
  }

  /** Terms have no blanks around them and no joiner between blanks in them, counting for all but
      the last the blanks that follow. */
  predicate AreTerms(ws: Words)
    decreases ws
  {
    && Trimmed(ws.word)
    && match ws
       case Last(word) => Unbroken(word, "")
       case Then(word, lead, _, trail, rest) =>
         Unbroken(word, " ") && IsBlanks(lead) && IsBlanks(trail) && AreTerms(rest)
  }

  lemma {:induction false} RunOf(blanks: string, rest: string)
    requires (forall i :: 0 <= i < |blanks| ==> IsBlank(blanks[i])) && (rest != "" ==> !IsBlank(rest[0]))
    ensures BlankRun(blanks + rest) == |blanks|
  {
    if blanks == "" {
      assert blanks + rest == rest;
    } else {
      assert (blanks + rest)[1..] == blanks[1..] + rest;
      RunOf(blanks[1..], rest);
    }
  }

  lemma {:induction false} RunInside(w: string, after: string)
    requires w != "" && !IsBlank(w[|w| - 1])
    ensures BlankRun(w + after) == BlankRun(w) < |w|
  {
    if IsBlank(w[0]) {
      assert (w + after)[1..] == w[1..] + after;
      RunInside(w[1..], after);
    }
  }

  lemma JoinerNotBlank(isOr: bool)
    ensures Joiner(isOr) != "" && forall i :: 0 <= i < |Joiner(isOr)| ==> !IsBlank(Joiner(isOr)[i])
  {
  }

  lemma RunStarts(s: string, k: nat)
    ensures k <= |s| ==> (BlankRun(s[k..]) > 0 <==> k < |s| && IsBlank(s[k]))
  {
    if k < |s| {
      assert s[k..][0] == s[k];
    }
  }

  predicate JoinerAt(s: string, k: nat, isOr: bool) {
    var n := |Joiner(isOr)|;
    k + n < |s| && s[k..k + n] == Joiner(isOr) && IsBlank(s[k + n])
  }

  lemma OneJoiner(s: string, k: nat)
    requires k + 3 <= |s| && s[k..k + 3] == "AND"
    ensures s[k..k + 2] != "OR"
  {
    assert s[k..k + 3][0] == s[k] && s[k..k + 2][0] == s[k];
  }

  /** Whether a joiner between blanks begins at i: the blanks and the joiner, spelled out. */
  lemma SeparatorIs(s: string, i: nat)
    requires i <= |s|
    ensures var w := i + BlankRun(s[i..]);
      SeparatorAt(s, i).Some? <==> w > i && (JoinerAt(s, w, false) || JoinerAt(s, w, true))
  {
    hide IsBlank, BlankRun;
    var w := i + BlankRun(s[i..]);
    RunStarts(s, w + 2);
    RunStarts(s, w + 3);
    if w + 3 <= |s| && s[w..w + 3] == "AND" {
      OneJoiner(s, w);
    }
  }

  /** What follows the blank after a term does not matter. */
  lemma SameSeparator(w: string, after: string, i: nat)
    requires i < |w| && !IsBlank(w[|w| - 1]) && after != "" && IsBlank(after[0])
    ensures SeparatorAt(w + after, i).Some? <==> SeparatorAt(w + " ", i).Some?
  {
    hide SeparatorAt, BlankRun, IsBlank, JoinerAt;
    var k := i + BlankRun(w[i..]);
    SeparatorAfter(w, after, i);
    SeparatorAfter(w, " ", i) by {
      SpaceIsBlank();
    }
    RunInside(w[i..], after);
    SameJoiner(w, after, k, false);
    SameJoiner(w, after, k, true);
  }

  lemma SpaceIsBlank()
    ensures IsBlank(' ')
  {
  }

  lemma SeparatorAfter(w: string, after: string, i: nat)
    requires i < |w| && !IsBlank(w[|w| - 1]) && after != "" && IsBlank(after[0])
    ensures var k := i + BlankRun(w[i..]);
      SeparatorAt(w + after, i).Some? <==> k > i && (JoinerAt(w + after, k, false) || JoinerAt(w + after, k, true))
  {
    hide SeparatorAt, BlankRun, IsBlank, JoinerAt;
    assert (w + after)[i..] == w[i..] + after;
    RunInside(w[i..], after);
    SeparatorIs(w + after, i);
  }

  lemma SameJoiner(w: string, after: string, k: nat, isOr: bool)
    requires k < |w| && after != "" && IsBlank(after[0])
    ensures JoinerAt(w + after, k, isOr) <==> JoinerAt(w + " ", k, isOr)
  {
    JoinerNotBlank(isOr);
    SpaceIsBlank();
    hide IsBlank, Joiner;
    var s, t, n := w + after, w + " ", |Joiner(isOr)|;
    if k + n <= |w| {
      assert s[k..k + n] == t[k..k + n];
    } else if k + n < |s| {
      assert s[k..k + n][|w| - k] == after[0];
    }
  }

  lemma {:induction false} NoneBefore(s: string, i: nat, n: nat)
    requires i <= n <= |s| && forall k: nat :: i <= k < n ==> SeparatorAt(s, k).None?
    ensures FindSeparator(s, i) == FindSeparator(s, n)
    decreases n - i
  {
    if i < n {
      NoneBefore(s, i + 1, n);
    }
  }

  lemma SeparatorValue(s: string, i: nat, w: nat, isOr: bool)
    requires i < w <= |s| && w == i + BlankRun(s[i..]) && JoinerAt(s, w, isOr)
    ensures var k := w + |Joiner(isOr)|; SeparatorAt(s, i) == Some(Separator(i, Joiner(isOr), k + BlankRun(s[k..])))
  {
    hide IsBlank, BlankRun;
    var k := w + |Joiner(isOr)|;
    RunStarts(s, k);
    if isOr {
      if w + 3 <= |s| && s[w..w + 3] == "AND" {
        OneJoiner(s, w);
      }
      assert k == w + 2 && s[w..w + 2] == "OR";
    } else {
      assert k == w + 3 && s[w..w + 3] == "AND";
    }
  }

  lemma SeparatorHere(before: string, lead: string, isOr: bool, trail: string, after: string)
    requires IsBlanks(lead) && IsBlanks(trail) && after != "" && !IsBlank(after[0])
    ensures SeparatorAt(before + (lead + (Joiner(isOr) + (trail + after))), |before|)
         == Some(Separator(|before|, Joiner(isOr), |before| + |lead| + |Joiner(isOr)| + |trail|))
  {
    JoinerNotBlank(isOr);
    hide IsBlank, BlankRun, Joiner, SeparatorAt;
    var j := Joiner(isOr);
    var s, i := before + (lead + (j + (trail + after))), |before|;
    var k := i + |lead|;
    RunOf(lead, j + (trail + after));
    RunOf(trail, after);
    assert s[i..] == lead + (j + (trail + after)) && s[k..k + |j|] == j && s[k + |j|..] == trail + after;
    assert s[k + |j|] == trail[0];
    SeparatorValue(s, i, k, isOr);
  }

  lemma TermsStart(ws: Words)
    requires AreTerms(ws)
    ensures WordsText(ws) != "" && !IsBlank(WordsText(ws)[0])
  {
  }

  lemma NoSeparator(w: string)
    requires Trimmed(w) && Unbroken(w, "")
    ensures FindSeparator(w, 0) == None
  {
    assert w + "" == w;
    NoneBefore(w, 0, |w|);
    assert w[|w|..] == "";
  }

  /** Splitting the text of terms and joiners gives the terms and joiners back. */
  lemma {:induction false} SplitOfWords(ws: Words)
    requires AreTerms(ws)
    ensures Split(WordsText(ws)) == WordsSplit(ws)
    decreases ws
  {
    hide FindSeparator, SeparatorAt, Trimmed, Unbroken, IsBlanks, Joiner;
    match ws
    case Last(word) => NoSeparator(word);
    case Then(word, lead, isOr, trail, rest) =>
      SplitOfWords(rest);
      TermsStart(rest);
      WordsStep(word, lead, isOr, trail, WordsText(rest));
  }

  lemma WordsStep(word: string, lead: string, isOr: bool, trail: string, rest: string)
    requires Trimmed(word) && Unbroken(word, " ") && IsBlanks(lead) && IsBlanks(trail)
    requires rest != "" && !IsBlank(rest[0])
    ensures Split(word + (lead + (Joiner(isOr) + (trail + rest)))) == [word, Joiner(isOr)] + Split(rest)
  {
    hide SeparatorAt, IsBlank, FindSeparator, Joiner;
    var after := lead + (Joiner(isOr) + (trail + rest));
    var s, n := word + after, |word|;
    assert after[0] == lead[0];
    forall i: nat | i < n
      ensures SeparatorAt(s, i).None?
    {
      SameSeparator(word, after, i);
    }
    NoneBefore(s, 0, n);
    SeparatorHere(word, lead, isOr, trail, rest);
    FoundHere(s, n);
    LastPart(word, lead, Joiner(isOr), trail, rest);
    assert s[..n] == word;
  }

  lemma FoundHere(s: string, i: nat)
    requires i <= |s| && SeparatorAt(s, i).Some?
    ensures FindSeparator(s, i) == SeparatorAt(s, i)
  {
    hide SeparatorAt;
  }

  lemma LastPart<T>(a: seq<T>, b: seq<T>, c: seq<T>, d: seq<T>, e: seq<T>)
    ensures (a + (b + (c + (d + e))))[|a| + |b| + |c| + |d|..] == e
  {
  }

  // -- every query string is of this form

  lemma {:induction false} FoundFirst(s: string, i: nat)
    requires i <= |s|
    ensures match FindSeparator(s, i)
      case None => forall k: nat :: i <= k <= |s| ==> SeparatorAt(s, k).None?
      case Some(sep) => sep.start >= i && FindSeparator(s, i) == SeparatorAt(s, sep.start)
                        && forall k: nat :: i <= k < sep.start ==> SeparatorAt(s, k).None?
    decreases |s| - i
  {
    hide SeparatorAt;
    if i < |s| && SeparatorAt(s, i).None? {
      FoundFirst(s, i + 1);
    }
  }

  lemma {:induction false} RunIsBlank(s: string)
    ensures forall i :: 0 <= i < BlankRun(s) ==> IsBlank(s[i])
    ensures BlankRun(s) < |s| ==> !IsBlank(s[BlankRun(s)])
  {
    if s != "" && IsBlank(s[0]) {
      RunIsBlank(s[1..]);
      assert forall i :: 0 < i < BlankRun(s) ==> s[i] == s[1..][i - 1];
    }
  }

  lemma {:induction false} RunBefore(s: string, i: nat)
    requires i + 1 <= |s|
    ensures BlankRun(s[i..]) == if IsBlank(s[i]) then 1 + BlankRun(s[i + 1..]) else 0
  {
    assert s[i..][1..] == s[i + 1..];
  }

  lemma RunAsBlanks(s: string, i: nat)
    requires i <= |s| && BlankRun(s[i..]) > 0
    ensures IsBlanks(s[i..i + BlankRun(s[i..])])
  {
    hide IsBlank, BlankRun;
    RunIsBlank(s[i..]);
    var lead := s[i..i + BlankRun(s[i..])];
    assert forall m :: 0 <= m < |lead| ==> lead[m] == s[i..][m];
  }

  lemma RestIsTrimmed(s: string, k: nat, end: nat)
    requires Trimmed(s) && k < |s| && end == k + BlankRun(s[k..])
    ensures end < |s| && Trimmed(s[end..])
  {
    hide IsBlank, BlankRun;
    RunIsBlank(s[k..]);
    assert s[k..][|s| - 1 - k] == s[|s| - 1];
    assert end < |s| ==> s[end] == s[k..][end - k];
  }

  lemma SeparatorJoins(s: string, i: nat) returns (isOr: bool)
    requires i <= |s| && SeparatorAt(s, i).Some?
    ensures var w := i + BlankRun(s[i..]); i < w && JoinerAt(s, w, isOr)
  {
    hide IsBlank, BlankRun, SeparatorAt, JoinerAt;
    SeparatorIs(s, i);
    isOr := JoinerAt(s, i + BlankRun(s[i..]), true);
  }

  /** The parts of a joiner between blanks. */
  lemma SeparatorParts(s: string, i: nat, sep: Separator) returns (lead: string, isOr: bool, trail: string)
    requires Trimmed(s) && i <= |s| && SeparatorAt(s, i) == Some(sep)
    ensures i < |s| && IsBlank(s[i])
    ensures IsBlanks(lead) && IsBlanks(trail) && sep.joiner == Joiner(isOr) && Trimmed(s[sep.end..])
    ensures s[i..] == lead + (Joiner(isOr) + (trail + s[sep.end..]))
  {
    hide SeparatorAt, IsBlank, BlankRun, Joiner;
    var w := i + BlankRun(s[i..]);
    isOr := SeparatorJoins(s, i);
    SeparatorValue(s, i, w, isOr);
    var k := w + |sep.joiner|;
    RunStarts(s, k);
    RunAsBlanks(s, i);
    RunAsBlanks(s, k);
    RestIsTrimmed(s, k, sep.end);
    lead, trail := s[i..w], s[k..sep.end];
    hide JoinerAt, Trimmed;
    assert lead[0] == s[i];
    assert s[i..] == lead + (s[w..k] + (trail + s[sep.end..]));
  }

  /** What lies before the leftmost joiner between blanks is a term. */
  lemma BeforeIsTerm(s: string, i: nat)
    requires Trimmed(s) && i < |s| && IsBlank(s[i]) && SeparatorAt(s, i).Some?
    requires forall k: nat :: k < i ==> SeparatorAt(s, k).None?
    ensures i > 0 && Trimmed(s[..i]) && Unbroken(s[..i], " ")
  {
    hide SeparatorAt, IsBlank, BlankRun, JoinerAt;
    SeparatorIs(s, i);
    SeparatorIs(s, i - 1);
    RunBefore(s, i - 1);
    var word, after := s[..i], s[i..];
    assert s == word + after && after[0] == s[i];
    forall m: nat | m < |word|
      ensures SeparatorAt(word + " ", m).None?
    {
      SameSeparator(word, after, m);
    }
  }

  /** Every text that is not blank reads as terms and joiners in this way. */
  lemma {:induction false} EveryTextIsTerms(s: string) returns (ws: Words)
    requires Trimmed(s)
    ensures AreTerms(ws) && WordsText(ws) == s
    decreases |s|
  {
    hide FindSeparator, SeparatorAt, Trimmed, IsBlanks, Joiner;
    var found := FindSeparator(s, 0);
    FoundFirst(s, 0);
    if found.None? {
      assert s + "" == s;
      ws := Last(s);
    } else {
      hide Unbroken;
      var sep := found.value;
      var lead, isOr, trail := SeparatorParts(s, sep.start, sep);
      BeforeIsTerm(s, sep.start);
      var rest := EveryTextIsTerms(s[sep.end..]);
      ws := Then(s[..sep.start], lead, isOr, trail, rest);
      assert s == s[..sep.start] + s[sep.start..];
    }
  }

  /** The truth of a chain of words: OR of the AND-groups, read from the left. */
  ghost predicate WordsHold(t: Table, ws: Words, row: Row)
    decreases ws
  {
    match ws
    case Last(word) => LTermHolds(TermOf(t, word), row)
    case Then(word, _, isOr, _, rest) =>
      if isOr then LTermHolds(TermOf(t, word), row) || WordsHold(t, rest, row)
      else (LTermHolds(TermOf(t, word), row) && LeadingHolds(t, rest, row)) || LaterHolds(t, rest, row)
  }

  /** All the words up to the first OR hold. */
  ghost predicate LeadingHolds(t: Table, ws: Words, row: Row)
    decreases ws
  {
    LTermHolds(TermOf(t, ws.word), row) && (ws.Then? && !ws.isOr ==> LeadingHolds(t, ws.rest, row))
  }

  /** What comes after the first OR holds, if there is one. */
  ghost predicate LaterHolds(t: Table, ws: Words, row: Row)
    decreases ws
  {
    ws.Then? && if ws.isOr then WordsHold(t, ws.rest, row) else LaterHolds(t, ws.rest, row)
  }

  ghost predicate GroupHolds(t: Table, g: seq<string>, row: Row) {
    forall term :: term in g ==> LTermHolds(TermOf(t, term), row)
  }

  lemma {:induction false} WordsAreGroups(t: Table, ws: Words, row: Row)
    ensures |WordsSplit(ws)| % 2 == 1
    ensures LeadingHolds(t, ws, row) <==> GroupHolds(t, Groups(WordsSplit(ws))[0], row)
    ensures LaterHolds(t, ws, row) <==>
      exists g :: g in Groups(WordsSplit(ws))[1..] && GroupHolds(t, g, row)
    ensures WordsHold(t, ws, row) <==> exists g :: g in Groups(WordsSplit(ws)) && GroupHolds(t, g, row)
    decreases ws
  {
    hide LTermHolds, TermOf;
    var split := WordsSplit(ws);
    if ws.Then? {
      WordsAreGroups(t, ws.rest, row);
      assert split[2..] == WordsSplit(ws.rest);
      var gs := Groups(split[2..]);
      if ws.isOr {
        assert Groups(split) == [[ws.word]] + gs;
        assert Groups(split)[1..] == gs;
      } else {
        assert Groups(split) == [[ws.word] + gs[0]] + gs[1..];
        assert Groups(split)[1..] == gs[1..];
      }
    }
    GroupsHeadTail(t, Groups(split), row);
    assert WordsHold(t, ws, row) <==> LeadingHolds(t, ws, row) || LaterHolds(t, ws, row);
  }

  lemma GroupsHeadTail(t: Table, gs: seq<seq<string>>, row: Row)
    requires gs != []
    ensures (exists g :: g in gs && GroupHolds(t, g, row)) <==>
      GroupHolds(t, gs[0], row) || exists g :: g in gs[1..] && GroupHolds(t, g, row)
  {
    assert gs == [gs[0]] + gs[1..];
  }

  lemma {:induction false} TextIsTrimmed(ws: Words)
    requires AreTerms(ws)
    ensures Trimmed(WordsText(ws))
    decreases ws
  {
    hide IsBlank;
    if ws.Then? {
      TextIsTrimmed(ws.rest);
      var more := ws.lead + (Joiner(ws.isOr) + (ws.trail + WordsText(ws.rest)));
      assert more[|more| - 1] == WordsText(ws.rest)[|WordsText(ws.rest)| - 1];
      assert WordsText(ws)[0] == ws.word[0] && WordsText(ws)[|WordsText(ws)| - 1] == more[|more| - 1];
    }
  }

  /** A query string of terms and joiners holds as its joiners say, AND first. */
  lemma {:induction false} WordsQueryMeans(t: Table, text: string, ws: Words, row: Row)
    requires ValidTable(t) && AreTerms(ws) && Strip(text, IsBlank) == WordsText(ws) && FreeColumns(t) != []
    ensures ClauseText(t, QueryString(text)).Success?
    ensures ParseSql(ClauseText(t, QueryString(text)).value).Some?
    ensures Holds(ParseSql(ClauseText(t, QueryString(text)).value).value, row) <==> WordsHold(t, ws, row)
  {
    hide ParseSql, ClauseText, Holds, FreeColumns, Split, Strip, WordsText, WordsSplit, WordsHold, LTermHolds, TermOf;
    hide Groups, AreTerms;
    QueryMeaning.ClauseMeansQuery(t, QueryString(text));
    TextIsTrimmed(ws);
    SplitOfWords(ws);
    WordsAreGroups(t, ws, row);
  }

  lemma {:induction false} StrippedStart(s: string)
    ensures StripLeft(s, IsBlank) != "" ==> !IsBlank(StripLeft(s, IsBlank)[0])
  {
    if s != "" && IsBlank(s[0]) {
      StrippedStart(s[1..]);
    }
  }

  lemma {:induction false} StrippedEnd(s: string)
    requires s != "" && !IsBlank(s[0])
    ensures Trimmed(StripRight(s, IsBlank))
  {
    if IsBlank(s[|s| - 1]) {
      StrippedEnd(s[..|s| - 1]);
    }
  }

  /** Every query string that is not blank is one of terms and joiners. */
  lemma EveryQueryIsTerms(text: string) returns (ws: Words)
    requires Strip(text, IsBlank) != ""
    ensures AreTerms(ws) && Strip(text, IsBlank) == WordsText(ws)
  {
    var s := StripLeft(text, IsBlank);
    StrippedStart(text);
    assert s != "" by {
      assert StripRight("", IsBlank) == "";
    }
    StrippedEnd(s);
    hide IsBlank, AreTerms, StripLeft, StripRight;
    ws := EveryTextIsTerms(Strip(text, IsBlank));
  }

  // ---------------------------------------------------------------- comparison terms

  lemma {:induction false} NumeralEnds(text: string)
    requires IsNumeral(text)
    ensures text != "" && (IsDigit(text[0]) || text[0] == '-') && IsDigit(text[|text| - 1])
    ensures forall i :: 0 <= i < |text| ==> IsDigit(text[i]) || text[i] == '-' || text[i] == '.'
  {
    var body := Unsigned(text);
    var n := DigitRun(body);
    if n < |body| {
      assert body == body[..n] + [body[n]] + body[n + 1..];
      assert DigitRun(body[n + 1..]) == |body[n + 1..]|;
    }
    assert text == if IsNegative(text) then ['-'] + body else body;
  }

  lemma {:induction false} ColonAt(field: string, rest: string)
    requires ':' !in field
    ensures IndexOf(field + ":" + rest, ':') == |field|
  {
    if field != "" {
      ColonAt(field[1..], rest);
      assert (field + ":" + rest)[1..] == field[1..] + ":" + rest;
    }
  }

  predicate SignHolds(v: real, sign: string, x: real) {
    && (sign == ">=" ==> v >= x)
    && (sign == "<=" ==> v <= x)
    && (sign == ">" ==> v > x)
    && (sign == "<" ==> v < x)
  }

  lemma CompareOf(sign: string, text: string)
    requires sign in {">=", "<=", ">", "<"} && text != "" && text[0] != '='
    ensures SplitCompare(sign + text).op.Some? && !SplitCompare(sign + text).op.value.Ilike?
    ensures SplitCompare(sign + text).value == text
    ensures forall v, x :: Compares(v, SplitCompare(sign + text).op.value, x) <==> SignHolds(v, sign, x)
  {
    var body := sign + text;
    if |sign| == 2 {
      assert body[..2] == sign && body[2..] == text;
    } else {
      assert body[0] == sign[0] && body[1] == text[0] && body[1..] == text;
    }
  }

  /** A comparison term on a numeric column, as in `rule.level:>=10`, compares numbers. */
  lemma {:induction false} ComparisonTermMeans(t: Table, field: string, sign: string, text: string, row: Row, v: real)
    requires field in t.fields && IsFieldName(field) && sign in {">=", "<=", ">", "<"} && IsNumeral(text)
    requires NumberColumn(row, t.fields[field], v)
    ensures LTermHolds(TermOf(t, field + ":" + (sign + text)), row) <==> SignHolds(v, sign, Decimal(text))
  {
    hide IsNumeral, Decimal, NumberColumn, TermOf, Compares, SignHolds, NumberLit, LTermHolds;
    ComparisonTermIs(t, field, sign, text);
    CompareOf(sign, text);
    LiteralCompares(row, t.fields[field], v, SplitCompare(sign + text).op.value, NumberV(text));
    HoldsFielded(Cmp(t.fields[field], SplitCompare(sign + text).op.value, Constant(NumberLit(text))), row);
  }

  lemma HoldsFielded(a: Atom, row: Row)
    ensures LTermHolds(Fielded(a), row) <==> AtomHolds(a, row)
  {
  }

  lemma ComparisonTermIs(t: Table, field: string, sign: string, text: string)
    requires field in t.fields && IsFieldName(field) && sign in {">=", "<=", ">", "<"} && IsNumeral(text)
    ensures text != "" && text[0] != '=' && SplitCompare(sign + text).op.Some?
    ensures TermOf(t, field + ":" + (sign + text))
         == Fielded(Cmp(t.fields[field], SplitCompare(sign + text).op.value, Constant(NumberLit(text))))
  {
    hide IsNumeral, Strip, SplitCompare, IndexOf, Replace, Substring, FreeColumns, LastSegment, NumberLit;
    var body := sign + text;
    var term := field + ":" + body;
    NumeralEnds(text);
    assert term[0] == field[0] && term[|term| - 1] == text[|text| - 1];
    StripNothing(term, IsBlank);
    ColonAt(field, body);
    assert term[..|field|] == field && term[|field| + 1..] == body;
    CompareOf(sign, text);
    StripNothing(text, IsBlank);
    StripNothing(text, ch => ch == '"');
  }

  /** A comparison with anything but a numeral compares with that text. */
  lemma {:induction false} TextComparisonIs(t: Table, field: string, sign: string, text: string, row: Row)
    requires field in t.fields && IsFieldName(field) && sign in {">=", "<=", ">", "<"} && !IsNumeral(text)
    requires Trimmed(text) && text[0] != '=' && text[0] != '"' && text[|text| - 1] != '"' && '\n' !in text
    ensures LTermHolds(TermOf(t, field + ":" + (sign + text)), row) <==>
      row.cmp(t.fields[field], if sign == ">=" then Ge else if sign == "<=" then Le else if sign == ">" then Gt else Lt,
              Constant(Quoted(text)))
  {
    hide IsNumeral, Strip, IndexOf, Replace, Substring, FreeColumns, LastSegment, NumberLit;
    var body := sign + text;
    var term := field + ":" + body;
    assert term[0] == field[0] && term[|term| - 1] == text[|text| - 1];
    StripNothing(term, IsBlank);
    ColonAt(field, body);
    assert term[..|field|] == field && term[|field| + 1..] == body;
    CompareOf(sign, text);
    CompareSign(sign, text);
    StripNothing(text, IsBlank);
    StripNothing(text, ch => ch == '"');
  }

  lemma CompareSign(sign: string, text: string)
    requires sign in {">=", "<=", ">", "<"} && text != "" && text[0] != '='
    ensures SplitCompare(sign + text).op ==
      Some(if sign == ">=" then Ge else if sign == "<=" then Le else if sign == ">" then Gt else Lt)
  {
    var body := sign + text;
    if |sign| == 2 {
      assert body[..2] == sign;
    } else {
      assert body[0] == sign[0] && body[1] == text[0];
    }
  }

  // ---------------------------------------------------------------- plain terms

  lemma {:induction false} StripQuotes(val: string)
    requires val != "" ==> val[0] != '"' && val[|val| - 1] != '"'
    ensures Strip("\"" + val + "\"", ch => ch == '"') == val
  {
    var quoted := "\"" + val + "\"";
    assert quoted[1..] == val + "\"";
    if val == "" {
      assert quoted[1..] == ['"'] && quoted[1..][1..] == "";
      assert StripLeft(quoted[1..], ch => ch == '"') == StripLeft("", ch => ch == '"');
    } else {
      assert StripLeft(quoted, ch => ch == '"') == val + "\"";
      assert (val + "\"")[..|val|] == val;
      assert StripRight(val + "\"", ch => ch == '"') == StripRight(val, ch => ch == '"');
    }
  }

  /** How a value may be written in a term: as it is, or between quotes. */
  predicate WrittenAs(val: string, written: string) {
    && (val != "" ==> val[0] != '"' && val[|val| - 1] != '"')
    && '*' !in val && '\n' !in val
    && (written == "\"" + val + "\"" || (written == val && Trimmed(val) && val[0] != '<' && val[0] != '>'))
  }

  lemma PlainTermIs(t: Table, field: string, val: string, written: string)
    requires field in t.fields && IsFieldName(field) && WrittenAs(val, written)
    ensures TermOf(t, field + ":" + written) ==
      Fielded(if t.fields[field] in t.arrays then Has(t.fields[field], Quoted(val))
              else Cmp(t.fields[field], Eq, Constant(Quoted(val))))
  {
    hide Strip, IndexOf, Replace, Substring, FreeColumns, LastSegment, IsNumeral;
    var term := field + ":" + written;
    assert written != "" && Trimmed(written);
    assert term[0] == field[0] && term[|term| - 1] == written[|written| - 1];
    StripNothing(term, IsBlank);
    ColonAt(field, written);
    assert term[..|field|] == field && term[|field| + 1..] == written;
    NoCompare(written);
    StripNothing(written, IsBlank);
    if written == "\"" + val + "\"" {
      StripQuotes(val);
    } else {
      StripNothing(val, ch => ch == '"');
    }
  }

  /** The query string `field:value`, quoted or not, holds of exactly the rows whose column holds
      that value, or has it in its array. */
  lemma {:induction false} PlainTermMeans(t: Table, field: string, val: string, written: string, row: Row, v: string,
                                          held: set<string>)
    requires ValidTable(t) && field in t.fields && IsFieldName(field) && WrittenAs(val, written)
    requires FreeColumns(t) != [] && AreTerms(Last(field + ":" + written))
    requires forall x :: row.cmp(t.fields[field], Eq, Constant(Quoted(x))) <==> v == x
    requires forall x :: row.has(t.fields[field], Quoted(x)) <==> x in held
    ensures ClauseText(t, QueryString(field + ":" + written)).Success?
    ensures ParseSql(ClauseText(t, QueryString(field + ":" + written)).value).Some?
    ensures Holds(ParseSql(ClauseText(t, QueryString(field + ":" + written)).value).value, row) <==>
      if t.fields[field] in t.arrays then val in held else v == val
  {
    hide ParseSql, ClauseText, Holds, FreeColumns, TermOf, WrittenAs, IsFieldName, Trimmed, Unbroken;
    var term := field + ":" + written;
    TermIsText(term);
    WordsQueryMeans(t, term, Last(term), row);
    PlainTermIs(t, field, val, written);
  }

  lemma TermIsText(term: string)
    requires AreTerms(Last(term))
    ensures Strip(term, IsBlank) == WordsText(Last(term))
  {
    StripNothing(term, IsBlank);
  }

  // ---------------------------------------------------------------- searches in text columns

  /** The column holds the text v, and SQL matches it with patterns, ignoring case. */
  ghost predicate TextColumn(row: Row, col: string, v: string, fold: Folding) {
    forall pattern :: row.cmp(col, Ilike, Constant(Quoted(pattern))) <==> Like(pattern, v, fold)
  }

  /** A row all of whose columns hold v. */
  ghost function UniformRow(v: string, fold: Folding): (row: Row)
    ensures forall col :: TextColumn(row, col, v, fold)
  {
    Row((_, op: CmpOp, o: Operand) => op.Ilike? && o.Constant? && o.lit.Quoted? && Like(o.lit.text, v, fold),
        (_, _) => false)
  }

  /** What a free-text term searches for. */
  function SearchText(raw: string): string {
    Strip(LastSegment(Strip(raw, IsBlank)), ch => ch == '"' || ch == '*')
  }

  lemma FreeTermSearches(t: Table, raw: string, row: Row)
    requires TermOf(t, raw).Free?
    ensures LTermHolds(TermOf(t, raw), row) <==>
      exists col :: col in FreeColumns(t) && row.cmp(col, Ilike, Constant(Quoted("%" + SearchText(raw) + "%")))
  {
    hide Strip, LastSegment, FreeColumns, IsFieldName, IndexOf, SplitCompare, Replace, IsNumeral;
    assert TermOf(t, raw).choices == Substring(FreeColumns(t), SearchText(raw));
    SubstringSearches(FreeColumns(t), SearchText(raw), row);
  }

  lemma {:induction false} SubstringSearches(cols: seq<string>, text: string, row: Row)
    ensures (exists a :: a in Substring(cols, text) && AtomHolds(a, row)) <==>
      exists col :: col in cols && row.cmp(col, Ilike, Constant(Quoted("%" + text + "%")))
  {
    if cols != [] {
      SubstringSearches(cols[1..], text, row);
      var a := Cmp(cols[0], Ilike, Constant(Quoted("%" + text + "%")));
      assert Substring(cols, text) == [a] + Substring(cols[1..], text);
      assert cols == [cols[0]] + cols[1..];
      assert AtomHolds(a, row) ==> a in Substring(cols, text);
    }
  }

  /** The descriptive columns of the row hold these texts. */
  ghost predicate TextRow(t: Table, row: Row, values: string -> string, fold: Folding) {
    forall col :: col in FreeColumns(t) ==> TextColumn(row, col, values(col), fold)
  }

  ghost predicate FoundIn(t: Table, text: string, values: string -> string, fold: Folding) {
    exists col :: col in FreeColumns(t) && Contains(values(col), text, fold)
  }

  lemma SearchesAre(t: Table, raw: string, row: Row, values: string -> string, fold: Folding)
    requires TermOf(t, raw).Free? && TextRow(t, row, values, fold)
    ensures LTermHolds(TermOf(t, raw), row) <==>
      exists col :: col in FreeColumns(t) && Like("%" + SearchText(raw) + "%", values(col), fold)
  {
    hide TermOf, FreeColumns, LTermHolds, Like, SearchText;
    FreeTermSearches(t, raw, row);
  }

  /** A free-text term holds of exactly the rows with its text in a descriptive column, whatever
      these hold, exactly when the text is plain. */
  lemma {:induction false} FreeTermMeansIffPlain(t: Table, raw: string, fold: Folding)
    requires TermOf(t, raw).Free? && FreeColumns(t) != [] && KeepsMarks(fold)
    ensures (forall row, values :: TextRow(t, row, values, fold) ==>
               (LTermHolds(TermOf(t, raw), row) <==> FoundIn(t, SearchText(raw), values, fold)))
      <==> Plain(SearchText(raw), false)
  {
    hide TermOf, FreeColumns, LTermHolds, Contains, Like, Plain, SearchText;
    var text := SearchText(raw);
    SearchMeansContainsIffPlain(text, fold);
    if Plain(text, false) {
      forall row, values | TextRow(t, row, values, fold)
        ensures LTermHolds(TermOf(t, raw), row) <==> FoundIn(t, text, values, fold)
      {
        SearchesAre(t, raw, row, values, fold);
      }
    } else {
      var v :| Like("%" + text + "%", v, fold) != Contains(v, text, fold);
      var row, values := UniformRow(v, fold), (_: string) => v;
      assert TextRow(t, row, values, fold);
      SearchesAre(t, raw, row, values, fold);
      var col := FreeColumns(t)[0];
      assert col in FreeColumns(t) && values(col) == v;
      assert FoundIn(t, text, values, fold) <==> Contains(v, text, fold);
      assert LTermHolds(TermOf(t, raw), row) <==> Like("%" + text + "%", v, fold);
    }
  }

  lemma {:induction false} StarsArePattern(val: string)
    ensures Pattern(ItemsOf(val)) == Replace(val, '*', "%")
  {
    if val != "" {
      StarsArePattern(val[1..]);
      assert ItemsOf(val)[1..] == ItemsOf(val[1..]);
    }
  }

  /** A term with a star on a field holds of exactly the rows whose column matches it, a star
      standing for any text, exactly when the rest of the term is plain. */
  lemma {:induction false} StarTermMeansIffPlain(t: Table, field: string, val: string, fold: Folding)
    requires field in t.fields && IsFieldName(field) && KeepsMarks(fold) && '*' in val && '\n' !in val
    requires val[0] != '<' && val[0] != '>' && val[0] != '"' && val[|val| - 1] != '"'
    requires !IsBlank(val[0]) && !IsBlank(val[|val| - 1])
    ensures (forall row, v :: TextColumn(row, t.fields[field], v, fold) ==>
               (LTermHolds(TermOf(t, field + ":" + val), row) <==> Finds(ItemsOf(val), v, fold)))
      <==> Plain(val, true)
  {
    StarTermIs(t, field, val);
    hide TermOf, Finds, Like, Plain, Pattern, ItemsOf, Replace;
    StarsArePattern(val);
    UnmarkedGlob(val);
    PatternMeansIffUnmarked(ItemsOf(val), fold);
    if !Plain(val, true) {
      var v :| Like(Pattern(ItemsOf(val)), v, fold) != Finds(ItemsOf(val), v, fold);
      var row := UniformRow(v, fold);
      assert TextColumn(row, t.fields[field], v, fold);
    }
  }

  lemma StarTermIs(t: Table, field: string, val: string)
    requires field in t.fields && IsFieldName(field) && '*' in val && '\n' !in val
    requires val[0] != '<' && val[0] != '>' && val[0] != '"' && val[|val| - 1] != '"'
    requires !IsBlank(val[0]) && !IsBlank(val[|val| - 1])
    ensures TermOf(t, field + ":" + val) ==
        Fielded(Cmp(t.fields[field], Ilike, Constant(Quoted(Replace(val, '*', "%")))))
  {
    hide Strip, IndexOf, Replace, Substring;
    var term := field + ":" + val;
    assert term[0] == field[0] && term[|term| - 1] == val[|val| - 1];
    StripNothing(term, IsBlank);
    ColonAt(field, val);
    assert term[..|field|] == field && term[|field| + 1..] == val;
    NoCompare(val);
    StripNothing(val, IsBlank);
    StripNothing(val, ch => ch == '"');
  }

  lemma NoCompare(val: string)
    requires val != "" && val[0] != '<' && val[0] != '>'
    ensures SplitCompare(val) == Compare(None, val)
  {
    if |val| > 2 {
      assert val[..2][0] == val[0];
    }
  }

  // ---------------------------------------------------------------- free text

  /** The columns searched are the descriptive ones that the table has. */
  lemma FreeColumnsAre(t: Table)
    ensures forall col :: col in FreeColumns(t) <==>
      && col in t.fields.Values
      && (col == "rule_description" || col == "agent_name" || col == "data_srcip" || col == "vuln_id")
  {
  }

  /** In the shipped tables these are three and two columns. */
  lemma ShippedFreeColumns()
    ensures FreeColumns(ALERTS) == ["rule_description", "agent_name", "data_srcip"]
    ensures FreeColumns(VULNERABILITIES) == ["agent_name", "vuln_id"]
  {
    assert ALERTS.fields["rule.description"] == "rule_description" && ALERTS.fields["agent.name"] == "agent_name";
    assert ALERTS.fields["data.srcip"] == "data_srcip";
    assert VULNERABILITIES.fields["agent.name"] == "agent_name";
    assert VULNERABILITIES.fields["vulnerability.id"] == "vuln_id";
  }

  lemma {:induction false} IndexAtMost(s: string, c: char, k: nat)
    requires k < |s| && s[k] == c
    ensures IndexOf(s, c) <= k
  {
    if k > 0 && s[0] != c {
      IndexAtMost(s[1..], c, k - 1);
    }
  }

  lemma {:induction false} LastSegmentIs(prefix: string, text: string)
    requires ':' !in text && (prefix == "" || prefix[|prefix| - 1] == ':')
    ensures LastSegment(prefix + text) == text
    decreases |prefix|
  {
    var s := prefix + text;
    var n := IndexOf(s, ':');
    if prefix == "" {
      assert s == text;
    } else {
      IndexAtMost(s, ':', |prefix| - 1);
      assert s[n + 1..] == prefix[n + 1..] + text;
      LastSegmentIs(prefix[n + 1..], text);
    }
  }

  lemma {:induction false} StripBetween(before: string, text: string, after: string, chars: char -> bool)
    requires forall i :: 0 <= i < |before| ==> chars(before[i])
    requires forall i :: 0 <= i < |after| ==> chars(after[i])
    requires text != "" && !chars(text[0]) && !chars(text[|text| - 1])
    ensures Strip(before + text + after, chars) == text
    decreases |before| + |after|
  {
    var s := before + text + after;
    if before != "" {
      assert s[1..] == before[1..] + text + after;
      StripBetween(before[1..], text, after, chars);
    } else if after != "" {
      assert s == text + after;
      assert s[..|s| - 1] == before + text + after[..|after| - 1];
      assert s[0] == text[0];
      StripBetween(before, text, after[..|after| - 1], chars);
      assert (before + text + after[..|after| - 1])[0] == text[0];
    } else {
      assert s == text;
    }
  }

  /** What is searched for is what follows the last colon, without quotes and stars around it. */
  lemma SearchTextIs(prefix: string, before: string, text: string, after: string)
    requires prefix == "" || prefix[|prefix| - 1] == ':'
    requires forall i :: 0 <= i < |before| ==> before[i] == '"' || before[i] == '*'
    requires forall i :: 0 <= i < |after| ==> after[i] == '"' || after[i] == '*'
    requires text != "" && ':' !in text && Trimmed(prefix + (before + text + after))
    requires text[0] != '"' && text[0] != '*' && text[|text| - 1] != '"' && text[|text| - 1] != '*'
    ensures SearchText(prefix + (before + text + after)) == text
  {
    hide Strip, LastSegment, IsBlank;
    StripNothing(prefix + (before + text + after), IsBlank);
    LastSegmentIs(prefix, before + text + after);
    StripBetween(before, text, after, ch => ch == '"' || ch == '*');
  }

  lemma TermIsFree(t: Table, term: string)
    requires Trimmed(term)
    requires forall field: string :: field in t.fields && field <= term && |field| < |term| ==> term[|field|] != ':'
    ensures TermOf(t, term).Free?
  {
    hide Strip, LastSegment, FreeColumns, Replace, IsNumeral, SplitCompare, Substring, IsBlank, IsFieldName;
    StripNothing(term, IsBlank);
    var n := IndexOf(term, ':');
    assert term[..n] <= term && |term[..n]| == n;
  }

  /** A query string that names no mapped field holds of exactly the rows with its text, if that
      has no mark of the pattern language, somewhere in one of the descriptive columns. */
  lemma {:induction false} FreeQueryMeans(t: Table, text: string, row: Row, values: string -> string, fold: Folding)
    requires ValidTable(t) && FreeColumns(t) != [] && KeepsMarks(fold) && AreTerms(Last(text))
    requires forall c :: c in ":\"*%_\\" ==> c !in text
    requires forall col :: col in FreeColumns(t) ==> TextColumn(row, col, values(col), fold)
    ensures ClauseText(t, QueryString(text)).Success? && ParseSql(ClauseText(t, QueryString(text)).value).Some?
    ensures Holds(ParseSql(ClauseText(t, QueryString(text)).value).value, row) <==>
      exists col :: col in t.fields.Values && Contains(values(col), text, fold) &&
        (col == "rule_description" || col == "agent_name" || col == "data_srcip" || col == "vuln_id")
  {
    hide ParseSql, ClauseText, Holds, TermOf, FreeColumns, Contains, Like, SearchText, TextColumn, Plain, Unbroken;
    TermIsText(text);
    WordsQueryMeans(t, text, Last(text), row);
    NoMarks(text);
    TermIsFree(t, text);
    assert "" + ("" + text + "") == text;
    SearchTextIs("", "", text, "");
    SearchMeansContainsIffPlain(text, fold);
    SearchesAre(t, text, row, values, fold);
    FreeColumnsAre(t);
  }

  lemma NoMarks(text: string)
    requires forall c :: c in ":\"*%_\\" ==> c !in text
    ensures ':' !in text && '"' !in text && '*' !in text && Plain(text, false)
  {
    var marks := ":\"*%_\\";
    assert marks[0] == ':' && marks[1] == '"' && marks[2] == '*';
    assert marks[3] == '%' && marks[4] == '_' && marks[5] == '\\';
    forall i: nat | i < |text|
      ensures PlainAt(text, i, false)
    {
      assert text[i] in text && text[i] !in marks;
    }
  }
}
