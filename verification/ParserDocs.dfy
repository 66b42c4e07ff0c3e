/** Loading parser documents: `ParseParserYAML` and `splitYAMLDocs` of `engine/parser.go`,
    lines 359-405, and what becomes of a document that is stored trimmed and loaded again.

    Decoding one document is a parameter; splitting, skipping and trimming are the code's. */
module ParserDocs {
  import opened Wrappers
  import opened Texts

  /** A compiled parser; `source` is its own document and `body` stands for what it does. */
  datatype Parser = Parser(name: string, logType: string, source: string, body: int)

  /** One document decoded: unreadable, empty, or a parser's mapping. */
  datatype Decoded = Unreadable | Nothing | Mapping(name: string, logType: string, body: int)

  datatype Loader = Loader(decode: string -> Decoded, compiles: int -> bool)

  // ---------------------------------------------------------------- splitting

  function Lines(s: string): (ls: seq<string>)
    ensures ls != []
  {
    SplitOn(s, '\n')
  }

  predicate IsSeparator(line: string) {
    Trim(line) == "---"
  }

  /** The documents of the remaining lines, the first of which has begun with `cur`. */
  function DocsFrom(lines: seq<string>, cur: string): seq<string> {
    if lines == [] then [cur]
    else if IsSeparator(lines[0]) then [cur] + DocsFrom(lines[1..], "")
    else DocsFrom(lines[1..], cur + lines[0] + "\n")
  }

  function SplitDocs(text: string): seq<string> {
    DocsFrom(Lines(text), "")
  }

  method SplitYaml(text: string) returns (docs: seq<string>)
    ensures docs == SplitDocs(text)
  {
    var lines := Lines(text);
    docs := [];
    var cur := "";
    for i := 0 to |lines|
      invariant docs + DocsFrom(lines[i..], cur) == SplitDocs(text)
    {
      assert lines[i..][1..] == lines[i + 1..];
      if IsSeparator(lines[i]) {
        assert docs + ([cur] + DocsFrom(lines[i + 1..], "")) == docs + [cur] + DocsFrom(lines[i + 1..], "");
        docs := docs + [cur];
        cur := "";
      } else {
        cur := cur + lines[i] + "\n";
      }
    }
    assert lines[|lines|..] == [];
    docs := docs + [cur];
  }

  // ---------------------------------------------------------------- loading

  /** Blank and empty documents are skipped; one that is unreadable or has no name fails all. */
  function ParsersOf(load: Loader, docs: seq<string>): Option<seq<Parser>> {
    if docs == [] then Some([])
    else
      var before, doc := ParsersOf(load, docs[..|docs| - 1]), docs[|docs| - 1];
      if before.None? || Trim(doc) == "" then before
      else
        match load.decode(doc)
        case Unreadable => None
        case Nothing => before
        case Mapping(name, logType, body) =>
          if name == "" then None else Some(before.value + [Parser(name, logType, Trim(doc), body)])
  }

  predicate AllCompile(load: Loader, ps: seq<Parser>) {
    forall i :: 0 <= i < |ps| ==> load.compiles(ps[i].body)
  }

  function Load(load: Loader, text: string): Option<seq<Parser>> {
    var ps := ParsersOf(load, SplitDocs(text));
    if ps.Some? && AllCompile(load, ps.value) then ps else None
  }

  method ParseYaml(load: Loader, text: string) returns (r: Option<seq<Parser>>)
    ensures r == Load(load, text)
  {
    var docs := SplitYaml(text);
    var out: seq<Parser> := [];
    for i := 0 to |docs|
      invariant ParsersOf(load, docs[..i]) == Some(out)
    {
      assert docs[..i + 1][..i] == docs[..i];
      if Trim(docs[i]) == "" {
        continue;
      }
      match load.decode(docs[i]) {
        case Nothing =>
        case Unreadable =>
          FailureStays(load, docs, i + 1);
          return None;
        case Mapping(name, logType, body) =>
          if name == "" {
            FailureStays(load, docs, i + 1);
            return None;
          }
          out := out + [Parser(name, logType, Trim(docs[i]), body)];
      }
    }
    assert docs[..|docs|] == docs;
    for i := 0 to |out|
      invariant forall j :: 0 <= j < i ==> load.compiles(out[j].body)
    {
      if !load.compiles(out[i].body) {
        return None;
      }
    }
    r := Some(out);
  }

  lemma {:induction false} FailureStays(load: Loader, docs: seq<string>, n: nat)
    requires n <= |docs| && ParsersOf(load, docs[..n]).None?
    ensures ParsersOf(load, docs).None?
    decreases |docs|
  {
    if n == |docs| {
      assert docs[..n] == docs;
    } else {
      assert docs[..|docs| - 1][..n] == docs[..n];
      FailureStays(load, docs[..|docs| - 1], n);
    }
  }

  /** A document that is read as this parser. */
  predicate ReadAs(load: Loader, doc: string, p: Parser) {
    && Trim(doc) != "" && p.name != "" && p.source == Trim(doc)
    && load.decode(doc) == Mapping(p.name, p.logType, p.body) && load.compiles(p.body)
  }

  /** Every loaded parser comes from a document of the text, which is its source trimmed; so no
      parser is ever without a source. */
  lemma {:induction false} LoadedFrom(load: Loader, docs: seq<string>, i: nat) returns (k: nat)
    requires ParsersOf(load, docs).Some? && i < |ParsersOf(load, docs).value|
    requires load.compiles(ParsersOf(load, docs).value[i].body)
    ensures k < |docs| && ReadAs(load, docs[k], ParsersOf(load, docs).value[i])
  {
    var n := |docs| - 1;
    var before := ParsersOf(load, docs[..n]).value;
    if i < |before| {
      k := LoadedFrom(load, docs[..n], i);
    } else {
      k := n;
    }
  }

  lemma LoadedHasSource(load: Loader, text: string)
    ensures Load(load, text).Some? ==>
      forall i :: 0 <= i < |Load(load, text).value| ==> Load(load, text).value[i].source != ""
  {
    if Load(load, text).Some? {
      forall i | 0 <= i < |Load(load, text).value|
        ensures Load(load, text).value[i].source != ""
      {
        var k := LoadedFrom(load, SplitDocs(text), i);
      }
    }
  }

  // ---------------------------------------------------------------- documents hold no separator

  predicate NoSeparator(lines: seq<string>) {
    forall i :: 0 <= i < |lines| ==> !IsSeparator(lines[i])
  }

  lemma LinesWithLine(s: string, line: string)
    requires '\n' !in line && Lines(s)[|Lines(s)| - 1] == ""
    ensures Lines(s + line + "\n") == Lines(s)[..|Lines(s)| - 1] + [line, ""]
  {
    var x := Lines(s);
    SplitFirst(line, '\n', "");
    assert line + ['\n'] + "" == line + "\n" && s + (line + "\n") == s + line + "\n";
    SplitConcat(s, line + "\n", '\n');
    assert Lines(line + "\n") == [line, ""];
    assert "" + line == line;
  }

  lemma SpaceIsNoSeparator()
    ensures !IsSeparator("")
  {
  }

  lemma {:induction false} DocsHaveNoSeparator(lines: seq<string>, cur: string, k: nat)
    requires forall i :: 0 <= i < |lines| ==> '\n' !in lines[i]
    requires NoSeparator(Lines(cur)) && Lines(cur)[|Lines(cur)| - 1] == ""
    requires k < |DocsFrom(lines, cur)|
    ensures NoSeparator(Lines(DocsFrom(lines, cur)[k]))
    decreases |lines|
  {
    SpaceIsNoSeparator();
    hide Lines, IsSeparator;
    if lines != [] {
      if IsSeparator(lines[0]) {
        if k > 0 {
          NoLines();
          DocsHaveNoSeparator(lines[1..], "", k - 1);
        }
      } else {
        LinesWithLine(cur, lines[0]);
        DocsHaveNoSeparator(lines[1..], cur + lines[0] + "\n", k);
      }
    }
  }

  lemma NoLines()
    ensures Lines("") == [""]
  {
  }

  // ---------------------------------------------------------------- a trimmed document is one document

  lemma {:induction false} StripLeftKeepsLines(s: string)
    requires NoSeparator(Lines(s))
    ensures NoSeparator(Lines(StripLeft(s, IsSpace)))
  {
    if s != "" && IsSpace(s[0]) {
      hide IsSeparator;
      DropFirst(s);
      StripLeftKeepsLines(s[1..]);
    }
  }

  lemma DropFirst(s: string)
    requires s != "" && IsSpace(s[0]) && NoSeparator(Lines(s))
    ensures NoSeparator(Lines(s[1..]))
  {
    var rest := Lines(s[1..]);
    if s[0] == '\n' {
      assert Lines(s) == [""] + rest;
      assert forall i :: 0 <= i < |rest| ==> rest[i] == Lines(s)[i + 1];
    } else {
      assert Lines(s)[0] == [s[0]] + rest[0];
      TrimLeft(s[0], rest[0]);
      assert forall i :: 1 <= i < |rest| ==> rest[i] == Lines(s)[i];
    }
  }

  lemma {:induction false} StripRightKeepsLines(s: string)
    requires NoSeparator(Lines(s))
    ensures NoSeparator(Lines(StripRight(s, IsSpace)))
  {
    if s != "" && IsSpace(s[|s| - 1]) {
      hide IsSeparator;
      DropLast(s);
      StripRightKeepsLines(s[..|s| - 1]);
    }
  }

  lemma LinesOfOne(c: char)
    ensures Lines([c]) == if c == '\n' then ["", ""] else [[c]]
  {
    assert [c][1..] == "" && [c] + "" == [c];
    assert SplitOn("", '\n') == [""] && [""][1..] == [];
    assert [[c] + ""] + [] == [[c]] && [""] + [""] == ["", ""];
  }

  lemma LinesSnoc(s: string, c: char)
    ensures var x := Lines(s);
      Lines(s + [c]) == if c == '\n' then x + [""] else x[..|x| - 1] + [x[|x| - 1] + [c]]
  {
    var x := Lines(s);
    SplitConcat(s, [c], '\n');
    LinesOfOne(c);
    hide SplitOn;
    if c == '\n' {
      assert Glue(x, ["", ""]) == x + [""] by {
        assert x[|x| - 1] + "" == x[|x| - 1] && ["", ""][1..] == [""];
      }
    } else {
      assert Glue(x, [[c]]) == x[..|x| - 1] + [x[|x| - 1] + [c]] by {
        assert [[c]][1..] == [];
      }
    }
  }

  lemma DropLast(s: string)
    requires s != "" && IsSpace(s[|s| - 1]) && NoSeparator(Lines(s))
    ensures NoSeparator(Lines(s[..|s| - 1]))
  {
    var t, c := s[..|s| - 1], s[|s| - 1];
    assert s == t + [c];
    LinesSnoc(t, c);
    hide Lines, Trim;
    var x := Lines(t);
    TrimRight(x[|x| - 1], c);
    forall i | 0 <= i < |x|
      ensures !IsSeparator(x[i])
    {
      assert i < |x| - 1 || c == '\n' ==> x[i] == Lines(s)[i];
      assert Lines(s)[i] == if i < |x| - 1 || c == '\n' then x[i] else x[i] + [c];
    }
  }

  /** The text a list of lines was split from. */
  function Unsplit(lines: seq<string>): string {
    if lines == [] then "" else lines[0] + "\n" + Unsplit(lines[1..])
  }

  lemma {:induction false} OneDocIs(lines: seq<string>, cur: string)
    requires NoSeparator(lines)
    ensures DocsFrom(lines, cur) == [cur + Unsplit(lines)]
  {
    if lines == [] {
      assert cur + "" == cur;
    } else {
      OneDocIs(lines[1..], cur + lines[0] + "\n");
      assert cur + lines[0] + "\n" + Unsplit(lines[1..]) == cur + (lines[0] + "\n" + Unsplit(lines[1..]));
    }
  }

  lemma {:induction false} UnsplitLines(s: string)
    ensures Unsplit(Lines(s)) == s + "\n"
  {
    if s == "" {
      assert [""][1..] == [];
    } else {
      UnsplitLines(s[1..]);
      var rest := Lines(s[1..]);
      assert s == [s[0]] + s[1..];
      if s[0] == '\n' {
        assert Lines(s)[1..] == rest;
        assert "" + "\n" + (s[1..] + "\n") == s + "\n";
      } else {
        assert Lines(s)[1..] == rest[1..];
        assert [s[0]] + rest[0] + "\n" + Unsplit(rest[1..]) == [s[0]] + (rest[0] + "\n" + Unsplit(rest[1..]));
      }
    }
  }

  /** A document of some text, trimmed, is split into itself and a final newline. */
  lemma {:induction false} TrimmedDocIsOne(doc: string)
    requires NoSeparator(Lines(doc))
    ensures SplitDocs(Trim(doc)) == [Trim(doc) + "\n"]
  {
    hide Lines, IsSeparator, DocsFrom;
    StripLeftKeepsLines(doc);
    StripRightKeepsLines(StripLeft(doc, IsSpace));
    UnsplitLines(Trim(doc));
    OneDocIs(Lines(Trim(doc)), "");
    assert "" + (Trim(doc) + "\n") == Trim(doc) + "\n";
  }

  /** Stored trimmed and loaded again, a document is decoded with its surrounding blanks gone
      and one newline at its end: it comes back as the same parser exactly if that decodes to
      what the document decoded to. */
  lemma {:induction false} ReloadsIff(load: Loader, doc: string, p: Parser)
    requires NoSeparator(Lines(doc)) && ReadAs(load, doc, p)
    ensures Load(load, p.source) == Some([p]) <==> load.decode(Trim(doc) + "\n") == load.decode(doc)
  {
    var t := Trim(doc);
    TrimmedDocIsOne(doc);
    TrimTwice(doc);
    TrimRight(t, '\n');
    assert t + ['\n'] == t + "\n";
    hide Trim, SplitDocs, Lines, ParsersOf;
    LoneDoc(load, t + "\n");
  }

  lemma LoneDoc(load: Loader, doc: string)
    requires Trim(doc) != ""
    ensures ParsersOf(load, [doc]) ==
      match load.decode(doc)
      case Unreadable => None
      case Nothing => Some([])
      case Mapping(name, logType, body) => if name == "" then None else Some([Parser(name, logType, Trim(doc), body)])
  {
    assert [doc][..0] == [] && ParsersOf(load, []) == Some([]);
    if load.decode(doc).Mapping? {
      var m := load.decode(doc);
      assert [] + [Parser(m.name, m.logType, Trim(doc), m.body)] == [Parser(m.name, m.logType, Trim(doc), m.body)];
    }
  }

  /** A stored document that cannot be decoded fails its load. */
  lemma UnreadableIsLost(load: Loader, doc: string)
    requires NoSeparator(Lines(doc)) && Trim(doc) != "" && load.decode(Trim(doc) + "\n").Unreadable?
    ensures Load(load, Trim(doc)).None?
  {
    var t := Trim(doc);
    TrimmedDocIsOne(doc);
    TrimTwice(doc);
    TrimRight(t, '\n');
    assert t + ['\n'] == t + "\n";
    hide Trim, SplitDocs, Lines, ParsersOf;
    LoneDoc(load, t + "\n");
  }

  // ---------------------------------------------------------------- what splitting and loading come to

  lemma LinesJoin(a: string, b: string)
    ensures Lines(a + "\n" + b) == Lines(a) + Lines(b)
  {
    var x, y := Lines(a), Lines(b);
    assert a + "\n" + b == a + ("\n" + b) && ("\n" + b)[1..] == b;
    SplitConcat(a, "\n" + b, '\n');
    assert SplitOn("\n" + b, '\n') == [""] + y;
    hide SplitOn;
    assert Glue(x, [""] + y) == x + y by {
      assert x[|x| - 1] + "" == x[|x| - 1] && ([""] + y)[1..] == y;
    }
  }

  lemma {:induction false} DocsAround(x: seq<string>, sep: string, y: seq<string>, cur: string)
    requires IsSeparator(sep)
    ensures DocsFrom(x + [sep] + y, cur) == DocsFrom(x, cur) + DocsFrom(y, "")
  {
    hide IsSeparator;
    var all := x + [sep] + y;
    if x == [] {
      assert all[0] == sep && all[1..] == y;
    } else {
      assert all[0] == x[0] && all[1..] == x[1..] + [sep] + y;
      if IsSeparator(x[0]) {
        DocsAround(x[1..], sep, y, "");
      } else {
        DocsAround(x[1..], sep, y, cur + x[0] + "\n");
      }
    }
  }

  lemma OneLine(s: string)
    requires '\n' !in s
    ensures Lines(s) == [s]
  {
    SplitWithout(s, '\n');
  }

  /** A line of three dashes, blanks aside, divides a text: its documents are those before the
      line and those after it. */
  lemma SplitAtSeparator(a: string, sep: string, b: string)
    requires '\n' !in sep && Trim(sep) == "---"
    ensures SplitDocs(a + "\n" + sep + "\n" + b) == SplitDocs(a) + SplitDocs(b)
  {
    hide DocsFrom, Lines, Trim;
    LinesJoin(a + "\n" + sep, b);
    LinesJoin(a, sep);
    OneLine(sep);
    DocsAround(Lines(a), sep, Lines(b), "");
  }

  /** A text without such a line is one document, with a newline at its end. */
  lemma OneDocument(text: string)
    requires forall i :: 0 <= i < |SplitOn(text, '\n')| ==> Trim(SplitOn(text, '\n')[i]) != "---"
    ensures SplitDocs(text) == [text + "\n"]
  {
    hide DocsFrom, Trim;
    OneDocIs(Lines(text), "");
    UnsplitLines(text);
    assert "" + (text + "\n") == text + "\n";
  }

  /** Which documents hold a parser, `at` being their positions in order, and which text fails. */
  ghost predicate Holds(load: Loader, docs: seq<string>, ps: seq<Parser>, at: seq<nat>) {
    && |at| == |ps|
    && (forall i :: 0 <= i < |ps| ==>
          && at[i] < |docs| && Trim(docs[at[i]]) != ""
          && load.decode(docs[at[i]]) == Mapping(ps[i].name, ps[i].logType, ps[i].body)
          && ps[i].source == Trim(docs[at[i]]))
    && (forall i, j :: 0 <= i < j < |at| ==> at[i] < at[j])
    && (forall k: nat :: k < |docs| && Trim(docs[k]) != "" && load.decode(docs[k]).Mapping? ==> k in at)
  }

  predicate Readable(load: Loader, doc: string) {
    Trim(doc) == "" || load.decode(doc).Nothing? || (load.decode(doc).Mapping? && load.decode(doc).name != "")
  }

  lemma {:induction false} ParsersAre(load: Loader, docs: seq<string>) returns (at: seq<nat>)
    ensures ParsersOf(load, docs).Some? <==> forall k: nat :: k < |docs| ==> Readable(load, docs[k])
    ensures ParsersOf(load, docs).Some? ==> Holds(load, docs, ParsersOf(load, docs).value, at)
  {
    hide Trim;
    at := [];
    if docs != [] {
      var n := |docs| - 1;
      var init, doc := docs[..n], docs[n];
      var before := ParsersAre(load, init);
      assert docs == init + [doc];
      assert (forall k: nat :: k < |docs| ==> Readable(load, docs[k])) <==>
        (forall k: nat :: k < |init| ==> Readable(load, init[k])) && Readable(load, doc);
      if ParsersOf(load, docs).Some? {
        if Trim(doc) != "" && load.decode(doc).Mapping? {
          at := before + [n];
          HoldsMore(load, init, doc, ParsersOf(load, init).value, before);
        } else {
          at := before;
          HoldsStill(load, init, doc, ParsersOf(load, init).value, before);
        }
      }
    }
  }

  lemma HoldsMore(load: Loader, docs: seq<string>, doc: string, ps: seq<Parser>, at: seq<nat>)
    requires Holds(load, docs, ps, at) && Trim(doc) != "" && load.decode(doc).Mapping?
    ensures var m := load.decode(doc);
      Holds(load, docs + [doc], ps + [Parser(m.name, m.logType, Trim(doc), m.body)], at + [|docs|])
  {
    hide Trim;
    var more, n := docs + [doc], |docs|;
    forall k: nat | k < |more| && Trim(more[k]) != "" && load.decode(more[k]).Mapping?
      ensures k in at + [n]
    {
      if k < n {
        assert more[k] == docs[k];
        assert k in at;
      }
    }
  }

  lemma HoldsStill(load: Loader, docs: seq<string>, doc: string, ps: seq<Parser>, at: seq<nat>)
    requires Holds(load, docs, ps, at) && (Trim(doc) == "" || !load.decode(doc).Mapping?)
    ensures Holds(load, docs + [doc], ps, at)
  {
    hide Trim;
    var more := docs + [doc];
    forall k: nat | k < |more| && Trim(more[k]) != "" && load.decode(more[k]).Mapping?
      ensures k in at
    {
      assert k < |docs| && more[k] == docs[k];
    }
  }

  /** A text loads exactly if each document is blank, is empty, or holds a parser that has a name
      and compiles; what is loaded are these parsers, in the order of their documents. */
  lemma LoadsIff(load: Loader, text: string) returns (at: seq<nat>)
    ensures Load(load, text).Some? <==>
      forall k: nat :: k < |SplitDocs(text)| ==>
        var doc := SplitDocs(text)[k];
        || Trim(doc) == "" || load.decode(doc).Nothing?
        || (load.decode(doc).Mapping? && load.decode(doc).name != "" && load.compiles(load.decode(doc).body))
    ensures Load(load, text).Some? ==> Holds(load, SplitDocs(text), Load(load, text).value, at)
  {
    hide SplitDocs, Trim, ParsersOf;
    var docs := SplitDocs(text);
    at := ParsersAre(load, docs);
    if ParsersOf(load, docs).Some? {
      var ps := ParsersOf(load, docs).value;
      forall k: nat | k < |docs| && Trim(docs[k]) != "" && load.decode(docs[k]).Mapping?
        ensures exists i :: 0 <= i < |ps| && ps[i].body == load.decode(docs[k]).body
      {
        var i :| 0 <= i < |at| && at[i] == k;
        assert ps[i].body == load.decode(docs[k]).body;
      }
    }
  }
}
