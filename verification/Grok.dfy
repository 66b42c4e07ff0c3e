/** Grok pattern expansion: `engine/grok.go`, lines 70-102.

    Patterns refer to library patterns by name; expansion substitutes them recursively, with
    a guard on the depth. */
module Grok {
  import opened Wrappers
  import opened Texts

  /** A pattern as its text and its `%{name}` or `%{name:field}` references; `field` is empty
      when there is none. */
  datatype Token = Text(s: string) | Ref(name: string, field: string)

  type Pattern = seq<Token>

  type Library = map<string, Pattern>

  datatype Error = TooDeep | Unknown(name: string)

  /** The text produced and the last error met. */
  datatype Expansion = Expansion(text: string, error: Option<Error>)

  const MAX_DEPTH := 20

  // ---------------------------------------------------------------- expansion

  function RefText(t: Token): string
    requires t.Ref?
  {
    "%{" + t.name + (if t.field == "" then "" else ":" + t.field) + "}"
  }

  function Wrap(field: string, sub: string): string {
    if field != "" then "(?P<" + GroupName(field) + ">" + sub + ")" else "(?:" + sub + ")"
  }

  function Expand(lib: Library, expr: Pattern, depth: nat): Expansion
    requires depth <= MAX_DEPTH + 1
    decreases MAX_DEPTH + 1 - depth, 1, |expr|
  {
    if depth > MAX_DEPTH then Expansion("", Some(TooDeep)) else ExpandTokens(lib, expr, depth)
  }

  function ExpandTokens(lib: Library, expr: Pattern, depth: nat): Expansion
    requires depth <= MAX_DEPTH
    decreases MAX_DEPTH + 1 - depth, 0, |expr|
  {
    if expr == [] then Expansion("", None)
    else
      var before := ExpandTokens(lib, expr[..|expr| - 1], depth);
      var last := ExpandToken(lib, expr[|expr| - 1], depth);
      Expansion(before.text + last.text, if last.error.Some? then last.error else before.error)
  }

  function ExpandToken(lib: Library, t: Token, depth: nat): Expansion
    requires depth <= MAX_DEPTH
    decreases MAX_DEPTH + 1 - depth, 0, 0
  {
    match t
    case Text(s) => Expansion(s, None)
    case Ref(name, field) =>
      if name !in lib then Expansion(RefText(t), Some(Unknown(name)))
      else
        var sub := Expand(lib, lib[name], depth + 1);
        if sub.error.Some? then Expansion(RefText(t), sub.error) else Expansion(Wrap(field, sub.text), None)
  }

  // ---------------------------------------------------------------- reference chains

  predicate Refers(expr: Pattern, name: string) {
    exists i :: 0 <= i < |expr| && expr[i].Ref? && expr[i].name == name
  }

  /** Names that follow one another by reference, starting from the expression. */
  ghost predicate Chain(lib: Library, expr: Pattern, names: seq<string>)
    decreases |names|
  {
    names == [] ||
        (Refers(expr, names[0]) && (|names| == 1 || (names[0] in lib && Chain(lib, lib[names[0]], names[1..]))))
  }

  /** Every chain of references from the expression is at most n long and ends in a known
      name. */
  ghost predicate Bounded(lib: Library, expr: Pattern, n: int) {
    forall names :: Chain(lib, expr, names) && names != [] ==> |names| <= n && names[|names| - 1] in lib
  }

  lemma ChainCons(lib: Library, expr: Pattern, name: string, names: seq<string>)
    requires Refers(expr, name) && name in lib && Chain(lib, lib[name], names)
    ensures Chain(lib, expr, [name] + names)
  {
    assert ([name] + names)[1..] == names;
  }

  lemma BoundedBelow(lib: Library, expr: Pattern, name: string, n: int)
    requires Bounded(lib, expr, n) && Refers(expr, name)
    ensures name in lib && n >= 1 && Bounded(lib, lib[name], n - 1)
  {
    assert Chain(lib, expr, [name]);
    assert [name][|[name]| - 1] == name;
    forall names | Chain(lib, lib[name], names) && names != []
      ensures |names| <= n - 1 && names[|names| - 1] in lib
    {
      ChainCons(lib, expr, name, names);
      var longer := [name] + names;
      assert longer[|longer| - 1] == names[|names| - 1];
    }
  }

  lemma BoundedFromBelow(lib: Library, expr: Pattern, n: int)
    requires n >= 0 && forall name :: Refers(expr, name) ==> name in lib && n >= 1 && Bounded(lib, lib[name], n - 1)
    ensures Bounded(lib, expr, n)
  {
    forall names | Chain(lib, expr, names) && names != []
      ensures |names| <= n && names[|names| - 1] in lib
    {
      if |names| > 1 {
        assert Chain(lib, lib[names[0]], names[1..]);
        assert names[1..][|names| - 2] == names[|names| - 1];
      }
    }
  }

  lemma {:induction false} TokensSucceed(lib: Library, expr: Pattern, depth: nat)
    requires depth <= MAX_DEPTH
    ensures ExpandTokens(lib, expr, depth).error.None? <==>
      forall i :: 0 <= i < |expr| ==> ExpandToken(lib, expr[i], depth).error.None?
    decreases |expr|
  {
    if expr != [] {
      TokensSucceed(lib, expr[..|expr| - 1], depth);
    }
  }

  lemma ExpandIsTokens(lib: Library, expr: Pattern, depth: nat)
    requires depth <= MAX_DEPTH
    ensures Expand(lib, expr, depth) == ExpandTokens(lib, expr, depth)
  {
  }

  /** What the result below says of the library's own patterns, one level further down. */
  ghost predicate DecidedBelow(lib: Library, depth: nat)
    requires depth <= MAX_DEPTH
  {
    forall name :: name in lib ==>
      (Expand(lib, lib[name], depth + 1).error.None? <==>
          depth < MAX_DEPTH && Bounded(lib, lib[name], MAX_DEPTH - depth - 1))
  }

  lemma TokenSucceeds(lib: Library, t: Token, depth: nat)
    requires depth <= MAX_DEPTH && DecidedBelow(lib, depth)
    ensures ExpandToken(lib, t, depth).error.None? <==>
      (t.Ref? ==> t.name in lib && depth < MAX_DEPTH && Bounded(lib, lib[t.name], MAX_DEPTH - depth - 1))
  {
    hide Expand, Bounded;
  }

  lemma SuccessIsBounded(lib: Library, expr: Pattern, depth: nat)
    requires depth <= MAX_DEPTH && DecidedBelow(lib, depth) && ExpandTokens(lib, expr, depth).error.None?
    ensures Bounded(lib, expr, MAX_DEPTH - depth)
  {
    TokensSucceed(lib, expr, depth);
    hide Expand, ExpandToken, ExpandTokens, Bounded, DecidedBelow;
    forall name | Refers(expr, name)
      ensures name in lib && MAX_DEPTH - depth >= 1 && Bounded(lib, lib[name], MAX_DEPTH - depth - 1)
    {
      var i :| 0 <= i < |expr| && expr[i].Ref? && expr[i].name == name;
      TokenSucceeds(lib, expr[i], depth);
    }
    BoundedFromBelow(lib, expr, MAX_DEPTH - depth);
  }

  lemma BoundedSucceeds(lib: Library, expr: Pattern, depth: nat)
    requires depth <= MAX_DEPTH && DecidedBelow(lib, depth) && Bounded(lib, expr, MAX_DEPTH - depth)
    ensures ExpandTokens(lib, expr, depth).error.None?
  {
    hide Expand, ExpandToken, ExpandTokens, Bounded, DecidedBelow;
    forall i | 0 <= i < |expr|
      ensures ExpandToken(lib, expr[i], depth).error.None?
    {
      TokenSucceeds(lib, expr[i], depth);
      if expr[i].Ref? {
        BoundedBelow(lib, expr, expr[i].name, MAX_DEPTH - depth);
      }
    }
    TokensSucceed(lib, expr, depth);
  }

  /** Expansion terminates on every library and succeeds exactly when every chain of references
      fits under the guard and every name on it is known. */
  lemma {:induction false} SucceedsIffBounded(lib: Library, expr: Pattern, depth: nat)
    requires depth <= MAX_DEPTH + 1
    ensures Expand(lib, expr, depth).error.None? <==> depth <= MAX_DEPTH && Bounded(lib, expr, MAX_DEPTH - depth)
    decreases MAX_DEPTH + 1 - depth
  {
    if depth <= MAX_DEPTH {
      forall name | name in lib
        ensures Expand(lib, lib[name], depth + 1).error.None? <==>
          depth < MAX_DEPTH && Bounded(lib, lib[name], MAX_DEPTH - depth - 1)
      {
        SucceedsIffBounded(lib, lib[name], depth + 1);
      }
      assert DecidedBelow(lib, depth);
      ExpandIsTokens(lib, expr, depth);
      hide Expand, ExpandTokens, Bounded;
      if ExpandTokens(lib, expr, depth).error.None? {
        SuccessIsBounded(lib, expr, depth);
      } else if Bounded(lib, expr, MAX_DEPTH - depth) {
        BoundedSucceeds(lib, expr, depth);
      }
    }
  }

  /** A pattern expands exactly when no chain of references from it is longer than twenty and
      each ends in a known name. */
  lemma ExpandsIffShallow(lib: Library, expr: Pattern)
    ensures Expand(lib, expr, 0).error.None? <==>
      forall names :: Chain(lib, expr, names) && names != [] ==> |names| <= 20 && names[|names| - 1] in lib
  {
    hide Expand, Chain;
    SucceedsIffBounded(lib, expr, 0);
  }

  /** Which error is met: an unknown name that a chain of references leads to, or a chain that
      the guard cuts off. */
  ghost predicate Explains(lib: Library, expr: Pattern, error: Error, depth: nat) {
    match error
    case Unknown(name) =>
      name !in lib && exists names :: Chain(lib, expr, names) && names != [] && names[|names| - 1] == name
    case TooDeep => exists names :: Chain(lib, expr, names) && depth + |names| == 21
  }

  lemma {:induction false} ErrorsMean(lib: Library, expr: Pattern, depth: nat)
    requires depth <= MAX_DEPTH + 1
    ensures Expand(lib, expr, depth).error.Some? ==>
      Explains(lib, expr, Expand(lib, expr, depth).error.value, depth)
    decreases MAX_DEPTH + 1 - depth
  {
    if depth > MAX_DEPTH {
      assert Chain(lib, expr, []);
    } else {
      ExpandIsTokens(lib, expr, depth);
      forall name | name in lib && Expand(lib, lib[name], depth + 1).error.Some?
        ensures Explains(lib, lib[name], Expand(lib, lib[name], depth + 1).error.value, depth + 1)
      {
        ErrorsMean(lib, lib[name], depth + 1);
      }
      hide Expand, ExpandTokens, Explains;
      if ExpandTokens(lib, expr, depth).error.Some? {
        var i := ErrorComesFrom(lib, expr, depth);
        TokenExplains(lib, expr, i, depth);
      }
    }
  }

  lemma {:induction false} ErrorComesFrom(lib: Library, expr: Pattern, depth: nat) returns (i: nat)
    requires depth <= MAX_DEPTH && ExpandTokens(lib, expr, depth).error.Some?
    ensures i < |expr| && ExpandToken(lib, expr[i], depth).error == ExpandTokens(lib, expr, depth).error
    decreases |expr|
  {
    var n := |expr| - 1;
    if ExpandToken(lib, expr[n], depth).error.Some? {
      i := n;
    } else {
      i := ErrorComesFrom(lib, expr[..n], depth);
    }
  }

  lemma TokenExplains(lib: Library, expr: Pattern, i: nat, depth: nat)
    requires depth <= MAX_DEPTH && i < |expr| && ExpandToken(lib, expr[i], depth).error.Some?
    requires expr[i].Ref? && expr[i].name in lib && Expand(lib, lib[expr[i].name], depth + 1).error.Some? ==>
      Explains(lib, lib[expr[i].name], Expand(lib, lib[expr[i].name], depth + 1).error.value, depth + 1)
    ensures Explains(lib, expr, ExpandToken(lib, expr[i], depth).error.value, depth)
  {
    var name := expr[i].name;
    assert Refers(expr, name);
    if name !in lib {
      assert Chain(lib, expr, [name]) && [name][|[name]| - 1] == name;
    } else {
      var error := Expand(lib, lib[name], depth + 1).error.value;
      if error.Unknown? {
        var names :| Chain(lib, lib[name], names) && names != [] && names[|names| - 1] == error.name;
        ChainCons(lib, expr, name, names);
        assert ([name] + names)[|names|] == error.name;
      } else {
        var names :| Chain(lib, lib[name], names) && depth + 1 + |names| == 21;
        ChainCons(lib, expr, name, names);
        assert depth + |[name] + names| == 21;
      }
    }
  }

  // ---------------------------------------------------------------- cycles

  function Repeat(names: seq<string>, k: nat): seq<string> {
    if k == 0 then [] else names + Repeat(names, k - 1)
  }

  lemma {:induction false} ChainAppend(lib: Library, expr: Pattern, a: seq<string>, b: seq<string>)
    requires Chain(lib, expr, a) && a != [] && a[|a| - 1] in lib && Chain(lib, lib[a[|a| - 1]], b)
    ensures Chain(lib, expr, a + b)
    decreases |a|
  {
    if |a| == 1 {
      assert (a + b)[1..] == b;
    } else {
      ChainAppend(lib, lib[a[0]], a[1..], b);
      assert (a + b)[1..] == a[1..] + b;
    }
  }

  lemma {:induction false} CycleRepeats(lib: Library, name: string, cycle: seq<string>, k: nat)
    requires name in lib && cycle != [] && Chain(lib, lib[name], cycle) && cycle[|cycle| - 1] == name
    ensures Chain(lib, lib[name], Repeat(cycle, k)) && |Repeat(cycle, k)| >= k
    decreases k
  {
    if k > 0 {
      CycleRepeats(lib, name, cycle, k - 1);
      ChainAppend(lib, lib[name], cycle, Repeat(cycle, k - 1));
    }
  }

  /** A pattern that leads back to itself is never expanded: the guard stops it. */
  lemma {:induction false} CyclesFail(lib: Library, expr: Pattern, name: string, cycle: seq<string>)
    requires Refers(expr, name) && name in lib
    requires cycle != [] && Chain(lib, lib[name], cycle) && cycle[|cycle| - 1] == name
    ensures Expand(lib, expr, 0).error.Some?
  {
    CycleRepeats(lib, name, cycle, MAX_DEPTH);
    ChainCons(lib, expr, name, Repeat(cycle, MAX_DEPTH));
    SucceedsIffBounded(lib, expr, 0);
    assert Chain(lib, expr, [name] + Repeat(cycle, MAX_DEPTH)) && |[name] + Repeat(cycle, MAX_DEPTH)| > MAX_DEPTH;
  }

  // ---------------------------------------------------------------- full substitution

  /** The pieces spell out the pattern, each reference replaced by the wrapped substitution of
      its definition, with at most h definitions inside one another. */
  ghost predicate Spells(lib: Library, expr: Pattern, pieces: seq<string>, h: nat)
    decreases h, 1
  {
    |pieces| == |expr| && forall i :: 0 <= i < |expr| ==> SpellsToken(lib, expr[i], pieces[i], h)
  }

  ghost predicate SpellsToken(lib: Library, t: Token, piece: string, h: nat)
    decreases h, 0
  {
    match t
    case Text(s) => piece == s
    case Ref(name, field) =>
      name in lib && h > 0 &&
      exists sub :: Spells(lib, lib[name], sub, h - 1) &&
        piece == (if field == "" then "(?:" else "(?P<" + GroupName(field) + ">") + Concat(sub) + ")"
  }

  lemma {:induction false} TokenSpelled(lib: Library, t: Token, depth: nat) returns (piece: string)
    requires depth <= MAX_DEPTH && ExpandToken(lib, t, depth).error.None?
    ensures piece == ExpandToken(lib, t, depth).text && SpellsToken(lib, t, piece, MAX_DEPTH - depth)
    decreases MAX_DEPTH + 1 - depth, 0
  {
    piece := ExpandToken(lib, t, depth).text;
    if t.Ref? {
      SucceedsIffBounded(lib, lib[t.name], depth + 1);
      var sub := TokensSpelled(lib, lib[t.name], depth + 1);
    }
  }

  lemma {:induction false} TokensSpelled(lib: Library, expr: Pattern, depth: nat) returns (pieces: seq<string>)
    requires depth <= MAX_DEPTH && ExpandTokens(lib, expr, depth).error.None?
    ensures Spells(lib, expr, pieces, MAX_DEPTH - depth) && Concat(pieces) == ExpandTokens(lib, expr, depth).text
    decreases MAX_DEPTH + 1 - depth, 1, |expr|
  {
    if expr == [] {
      pieces := [];
    } else {
      var n := |expr| - 1;
      var before := TokensSpelled(lib, expr[..n], depth);
      var last := TokenSpelled(lib, expr[n], depth);
      pieces := before + [last];
      assert pieces[..n] == before;
      forall i | 0 <= i < |expr|
        ensures SpellsToken(lib, expr[i], pieces[i], MAX_DEPTH - depth)
      {
        if i < n {
          assert expr[..n][i] == expr[i];
        }
      }
    }
  }

  /** A pattern has at most one full substitution, whatever the bound on nesting. */
  lemma {:induction false} SubstitutionIsUnique(lib: Library, expr: Pattern, a: seq<string>, g: nat,
                                                b: seq<string>, h: nat)
    requires Spells(lib, expr, a, g) && Spells(lib, expr, b, h)
    ensures a == b
    decreases g
  {
    forall i | 0 <= i < |expr|
      ensures a[i] == b[i]
    {
      assert SpellsToken(lib, expr[i], a[i], g) && SpellsToken(lib, expr[i], b[i], h);
      if expr[i].Ref? {
        var def := lib[expr[i].name];
        var sa :| Spells(lib, def, sa, g - 1) && a[i] == Wrap(expr[i].field, Concat(sa));
        var sb :| Spells(lib, def, sb, h - 1) && b[i] == Wrap(expr[i].field, Concat(sb));
        SubstitutionIsUnique(lib, def, sa, g - 1, sb, h - 1);
      }
    }
  }

  /** When expansion succeeds its text is the pattern's full substitution, the only one. */
  lemma {:induction false} ExpansionIsSubstitution(lib: Library, expr: Pattern, pieces: seq<string>, h: nat)
    requires Expand(lib, expr, 0).error.None? && Spells(lib, expr, pieces, h)
    ensures Expand(lib, expr, 0).text == Concat(pieces)
  {
    var mine := TokensSpelled(lib, expr, 0);
    SubstitutionIsUnique(lib, expr, mine, MAX_DEPTH, pieces, h);
  }

  lemma {:induction false} ExpansionHasSubstitution(lib: Library, expr: Pattern) returns (pieces: seq<string>)
    requires Expand(lib, expr, 0).error.None?
    ensures Spells(lib, expr, pieces, MAX_DEPTH) && Expand(lib, expr, 0).text == Concat(pieces)
  {
    pieces := TokensSpelled(lib, expr, 0);
  }

  // ---------------------------------------------------------------- field names in group names

  /** Every dot becomes two underscores. */
  function GroupName(field: string): string {
    if field == "" then ""
    else (if field[0] == '.' then "__" else [field[0]]) + GroupName(field[1..])
  }

  /** Every two underscores, from the left, become a dot. */
  function FieldName(group: string): string {
    if group == "" then ""
    else if |group| > 1 && group[0] == '_' && group[1] == '_' then "." + FieldName(group[2..])
    else [group[0]] + FieldName(group[1..])
  }

  /** No underscore is followed by a dot or by another underscore. */
  predicate Codable(field: string) {
    forall i :: 0 <= i < |field| - 1 && field[i] == '_' ==> field[i + 1] != '_' && field[i + 1] != '.'
  }

  lemma CodableTail(field: string)
    requires field != ""
    ensures Codable(field) <==>
      Codable(field[1..]) && (|field| > 1 && field[0] == '_' ==> field[1] != '_' && field[1] != '.')
  {
    if Codable(field[1..]) && (|field| > 1 && field[0] == '_' ==> field[1] != '_' && field[1] != '.') {
      forall i | 0 <= i < |field| - 1 && field[i] == '_'
        ensures field[i + 1] != '_' && field[i + 1] != '.'
      {
        if i > 0 {
          assert field[1..][i - 1] == field[i] && field[1..][i] == field[i + 1];
        }
      }
    }
    if Codable(field) {
      forall i | 0 <= i < |field[1..]| - 1 && field[1..][i] == '_'
        ensures field[1..][i + 1] != '_' && field[1..][i + 1] != '.'
      {
        assert field[1..][i] == field[i + 1] && field[1..][i + 1] == field[i + 2];
      }
    }
  }

  /** A field name survives being a group name exactly when no underscore in it is followed by
      a dot or another underscore. */
  lemma {:induction false} NameRoundTrip(field: string)
    ensures FieldName(GroupName(field)) == field <==> Codable(field)
  {
    if field != "" {
      var c, rest := field[0], field[1..];
      var g := GroupName(rest);
      NameRoundTrip(rest);
      CodableTail(field);
      assert field == [c] + rest;
      if c == '.' {
        assert ("__" + g)[2..] == g;
      } else if c == '_' && rest != "" && (rest[0] == '_' || rest[0] == '.') {
        assert g[0] == '_';
        assert GroupName(field)[1] == '_';
        assert FieldName(GroupName(field))[0] == '.';
      } else {
        assert ([c] + g)[1..] == g;
        assert c == '_' && g != "" ==> g[0] == rest[0];
      }
    }
  }
}
