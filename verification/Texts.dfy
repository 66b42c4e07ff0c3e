/** White space, trimming and splitting, as the standard libraries of the code do them. */
module Texts {

  /** Unicode white space. */
  predicate IsSpace(c: char) {
    || '\U{9}' <= c <= '\U{d}' || c == ' ' || c == '\U{85}' || c == '\U{a0}' || c == '\U{1680}'
    || '\U{2000}' <= c <= '\U{200a}' || c == '\U{2028}' || c == '\U{2029}' || c == '\U{202f}'
    || c == '\U{205f}' || c == '\U{3000}'
  }

  function StripLeft(s: string, chars: char -> bool): string {
    if s != "" && chars(s[0]) then StripLeft(s[1..], chars) else s
  }

  function StripRight(s: string, chars: char -> bool): string {
    if s != "" && chars(s[|s| - 1]) then StripRight(s[..|s| - 1], chars) else s
  }

  function Strip(s: string, chars: char -> bool): string {
    StripRight(StripLeft(s, chars), chars)
  }

  /** Without surrounding white space. */
  function Trim(s: string): string {
    Strip(s, IsSpace)
  }

  lemma TrimLeft(c: char, s: string)
    requires IsSpace(c)
    ensures Trim([c] + s) == Trim(s)
  {
    assert ([c] + s)[1..] == s;
  }

  lemma {:induction false} StripLeftSnoc(s: string, c: char)
    ensures StripLeft(s + [c], IsSpace) ==
      if StripLeft(s, IsSpace) == "" && IsSpace(c) then "" else StripLeft(s, IsSpace) + [c]
  {
    if s == "" {
      assert s + [c] == [c] && [c][1..] == "";
    } else {
      assert (s + [c])[1..] == s[1..] + [c];
      if IsSpace(s[0]) {
        StripLeftSnoc(s[1..], c);
      }
    }
  }

  lemma TrimRight(s: string, c: char)
    requires IsSpace(c)
    ensures Trim(s + [c]) == Trim(s)
  {
    StripLeftSnoc(s, c);
    var t := StripLeft(s, IsSpace);
    assert (t + [c])[..|t|] == t;
  }

  lemma {:induction false} TrimOfStripLeft(s: string)
    ensures Trim(StripLeft(s, IsSpace)) == Trim(s)
  {
    if s != "" && IsSpace(s[0]) {
      TrimOfStripLeft(s[1..]);
    }
  }

  lemma {:induction false} TrimOfStripRight(s: string)
    ensures Trim(StripRight(s, IsSpace)) == Trim(s)
  {
    if s != "" && IsSpace(s[|s| - 1]) {
      TrimOfStripRight(s[..|s| - 1]);
      TrimRight(s[..|s| - 1], s[|s| - 1]);
      assert s == s[..|s| - 1] + [s[|s| - 1]];
    }
  }

  lemma StripNothing(s: string, chars: char -> bool)
    requires s != "" ==> !chars(s[0]) && !chars(s[|s| - 1])
    ensures Strip(s, chars) == s
  {
  }

  lemma TrimTwice(s: string)
    ensures Trim(Trim(s)) == Trim(s)
  {
    TrimOfStripRight(StripLeft(s, IsSpace));
    TrimOfStripLeft(s);
  }

  // ---------------------------------------------------------------- putting together

  function Concat(pieces: seq<string>): string {
    if pieces == [] then "" else Concat(pieces[..|pieces| - 1]) + pieces[|pieces| - 1]
  }

  /** One after the other, in order. */
  lemma {:induction false} ConcatJoins(a: seq<string>, b: seq<string>)
    ensures Concat(a + b) == Concat(a) + Concat(b)
    ensures |b| == 1 ==> Concat(b) == b[0]
  {
    if b == [] {
      assert a + b == a;
    } else {
      var n := |b| - 1;
      ConcatJoins(a, b[..n]);
      assert (a + b)[..|a| + n] == a + b[..n];
      assert |b| == 1 ==> b[..n] == [];
    }
  }

  // ---------------------------------------------------------------- splitting

  /** The pieces between the occurrences of a character. */
  function SplitOn(s: string, c: char): (r: seq<string>)
    ensures r != []
  {
    if s == "" then [""]
    else
      var rest := SplitOn(s[1..], c);
      if s[0] == c then [""] + rest else [[s[0]] + rest[0]] + rest[1..]
  }

  /** The last piece of x and the first of y run together. */
  function Glue(x: seq<string>, y: seq<string>): (r: seq<string>)
    requires x != [] && y != []
    ensures |r| == |x| + |y| - 1
  {
    x[..|x| - 1] + [x[|x| - 1] + y[0]] + y[1..]
  }

  lemma GlueAfter(first: string, z: seq<string>, y: seq<string>)
    requires z != [] && y != []
    ensures Glue([first] + z, y) == [first] + Glue(z, y)
  {
    var x := [first] + z;
    assert x[..|x| - 1] == [first] + z[..|z| - 1];
  }

  lemma GlueExtended(c: char, z: seq<string>, y: seq<string>)
    requires z != [] && y != []
    ensures Glue([[c] + z[0]] + z[1..], y) == [[c] + Glue(z, y)[0]] + Glue(z, y)[1..]
  {
    if |z| == 1 {
      assert [[c] + z[0]] + z[1..] == [[c] + z[0]];
      assert ([c] + z[0]) + y[0] == [c] + (z[0] + y[0]);
      assert Glue(z, y) == [z[0] + y[0]] + y[1..];
    } else {
      GlueAfter([c] + z[0], z[1..], y);
      GlueAfter(z[0], z[1..], y);
      assert z == [z[0]] + z[1..];
    }
  }

  lemma {:induction false} SplitConcat(a: string, b: string, c: char)
    ensures SplitOn(a + b, c) == Glue(SplitOn(a, c), SplitOn(b, c))
  {
    hide Glue;
    var y := SplitOn(b, c);
    if a == "" {
      GlueNothing(y);
      assert a + b == b;
    } else {
      assert (a + b)[1..] == a[1..] + b && (a + b)[0] == a[0];
      SplitConcat(a[1..], b, c);
      GlueAfter("", SplitOn(a[1..], c), y);
      GlueExtended(a[0], SplitOn(a[1..], c), y);
    }
  }

  lemma GlueNothing(y: seq<string>)
    requires y != []
    ensures Glue([""], y) == y
  {
    assert "" + y[0] == y[0];
  }

  lemma {:induction false} SplitWithout(s: string, c: char)
    requires c !in s
    ensures SplitOn(s, c) == [s]
  {
    if s != "" {
      SplitWithout(s[1..], c);
      assert s == [s[0]] + s[1..];
    }
  }

  lemma {:induction false} PiecesWithout(s: string, c: char)
    ensures forall i :: 0 <= i < |SplitOn(s, c)| ==> c !in SplitOn(s, c)[i]
  {
    if s != "" {
      PiecesWithout(s[1..], c);
    }
  }

  lemma {:induction false} SplitFirst(first: string, c: char, rest: string)
    requires c !in first
    ensures SplitOn(first + [c] + rest, c) == [first] + SplitOn(rest, c)
  {
    if first == "" {
      assert ("" + [c] + rest)[1..] == rest;
    } else {
      assert (first + [c] + rest)[1..] == first[1..] + [c] + rest;
      SplitFirst(first[1..], c, rest);
      assert [first[0]] + first[1..] == first;
    }
  }
}
