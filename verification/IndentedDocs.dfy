/** Which stored parser documents come back: those of the plainest kind, block mappings of
    words to words.

    In YAML all entries of a block mapping stand at one indentation, whichever it is
    (sections 6.1 and 8.2.2 of YAML 1.2).  Trimming a document, as the engine does before
    storing it, moves its first entry to the margin and leaves the others where they are. */
module IndentedDocs {
  import opened Texts
  import opened ParserDocs

  // ---------------------------------------------------------------- entries and their indentation

  predicate IsWordChar(c: char) {
    'a' <= c <= 'z' || 'A' <= c <= 'Z' || '0' <= c <= '9' || c == '_'
  }

  predicate IsWord(w: string) {
    w != "" && forall i :: 0 <= i < |w| ==> IsWordChar(w[i])
  }

  /** `key: value` */
  ghost predicate IsEntry(line: string) {
    exists key, value :: IsWord(key) && IsWord(value) && line == key + ": " + value
  }

  /** A line that is not blank: how far it is indented, and what it holds. */
  datatype Entry = Entry(indent: nat, core: string)

  function Indent(line: string): nat {
    if line != "" && line[0] == ' ' then 1 + Indent(line[1..]) else 0
  }

  function Entries(lines: seq<string>): seq<Entry> {
    if lines == [] then []
    else (if Trim(lines[0]) == "" then [] else [Entry(Indent(lines[0]), Trim(lines[0]))]) + Entries(lines[1..])
  }

  function Profile(doc: string): seq<Entry> {
    Entries(Lines(doc))
  }

  /** Nothing but entries, blanks and newlines. */
  ghost predicate IsFlat(doc: string) {
    FlatChars(doc) && forall i :: 0 <= i < |Profile(doc)| ==> IsEntry(Profile(doc)[i].core)
  }

  predicate FlatChars(s: string) {
    forall c :: c in s ==> IsWordChar(c) || c == ':' || c == ' ' || c == '\n'
  }

  predicate Even(es: seq<Entry>) {
    forall i, j :: 0 <= i < j < |es| ==> es[i].indent == es[j].indent
  }

  function Cores(es: seq<Entry>): (cs: seq<string>)
    ensures |cs| == |es| && forall i :: 0 <= i < |cs| ==> cs[i] == es[i].core
  {
    seq(|es|, i requires 0 <= i < |es| => es[i].core)
  }

  /** What YAML says of such documents: entries at one indentation are a mapping that does not
      depend on it, entries at several are not readable. */
  ghost predicate ReadsMappings(load: Loader, mapping: seq<string> -> Decoded) {
    forall doc :: IsFlat(doc) && Profile(doc) != [] ==>
      load.decode(doc) == if Even(Profile(doc)) then mapping(Cores(Profile(doc))) else Unreadable
  }

  // ---------------------------------------------------------------- trimming and indentation

  lemma {:induction false} EntriesConcat(a: seq<string>, b: seq<string>)
    ensures Entries(a + b) == Entries(a) + Entries(b)
  {
    if a == [] {
      assert a + b == b;
    } else {
      assert (a + b)[1..] == a[1..] + b;
      EntriesConcat(a[1..], b);
    }
  }

  lemma NotBlank(line: string)
    requires line != "" && !IsSpace(line[0])
    ensures Trim(line) != "" && Indent(line) == 0
  {
    FirstStays(line);
  }

  lemma {:induction false} FirstStays(s: string)
    requires s != "" && !IsSpace(s[0])
    ensures StripRight(s, IsSpace) != "" && StripRight(s, IsSpace)[0] == s[0]
  {
    if IsSpace(s[|s| - 1]) {
      FirstStays(s[..|s| - 1]);
    }
  }

  lemma {:induction false} IndentSnoc(line: string, c: char)
    requires Trim(line) != ""
    ensures Indent(line + [c]) == Indent(line)
  {
    if line != "" && line[0] == ' ' {
      TrimLeft(' ', line[1..]);
      assert [' '] + line[1..] == line && (line + [c])[1..] == line[1..] + [c];
      IndentSnoc(line[1..], c);
    }
  }

  /** The first entry at the margin. */
  function Lowered(es: seq<Entry>): seq<Entry> {
    if es == [] then [] else [Entry(0, es[0].core)] + es[1..]
  }

  predicate PlainBlanks(s: string) {
    forall c :: c in s && IsSpace(c) ==> c == ' ' || c == '\n'
  }

  /** How the entries change when one character is put before the text. */
  lemma ProfileCons(c: char, s: string)
    ensures c == '\n' ==> Profile([c] + s) == Profile(s)
    ensures c == ' ' ==> Lowered(Profile([c] + s)) == Lowered(Profile(s))
    ensures !IsSpace(c) ==> Lowered(Profile([c] + s)) == Profile([c] + s)
  {
    var rest := Lines(s);
    LinesCons(c, s);
    hide Lines;
    if c == '\n' {
      EntriesFirst("", rest);
      EmptyIsBlank();
    } else {
      assert rest == [rest[0]] + rest[1..];
      EntriesFirst([c] + rest[0], rest[1..]);
      EntriesFirst(rest[0], rest[1..]);
      assert ([c] + rest[0])[1..] == rest[0];
      if c == ' ' {
        TrimLeft(' ', rest[0]);
      } else if !IsSpace(c) {
        NotBlank([c] + rest[0]);
      }
      hide Trim;
    }
  }

  lemma LinesCons(c: char, s: string)
    ensures Lines([c] + s) == if c == '\n' then [""] + Lines(s) else [[c] + Lines(s)[0]] + Lines(s)[1..]
  {
    assert ([c] + s)[1..] == s;
  }

  lemma EntriesFirst(first: string, lines: seq<string>)
    ensures Entries([first] + lines)
         == (if Trim(first) == "" then [] else [Entry(Indent(first), Trim(first))]) + Entries(lines)
  {
    assert ([first] + lines)[1..] == lines;
  }

  lemma EmptyIsBlank()
    ensures Trim("") == ""
  {
  }

  lemma {:induction false} StripLeftLowers(s: string)
    requires PlainBlanks(s)
    ensures Profile(StripLeft(s, IsSpace)) == Lowered(Profile(s))
  {
    if s != "" {
      assert s == [s[0]] + s[1..];
      ProfileCons(s[0], s[1..]);
      if IsSpace(s[0]) {
        StripLeftLowers(s[1..]);
      }
      hide Profile;
    }
  }

  lemma EntriesLast(lines: seq<string>, last: string)
    ensures Entries(lines + [last])
         == Entries(lines) + if Trim(last) == "" then [] else [Entry(Indent(last), Trim(last))]
  {
    EntriesConcat(lines, [last]);
    assert [last][1..] == [];
  }

  lemma DropLastBlank(t: string, c: char)
    requires c == ' ' || c == '\n'
    ensures Profile(t + [c]) == Profile(t)
  {
    var x := Lines(t);
    var init, last := x[..|x| - 1], x[|x| - 1];
    LinesSnoc(t, c);
    assert x == init + [last];
    EntriesLast(init, last);
    if c == '\n' {
      EntriesLast(x, "");
    } else {
      EntriesLast(init, last + [' ']);
      TrimRight(last, ' ');
      if Trim(last) != "" {
        IndentSnoc(last, ' ');
      }
    }
  }

  lemma {:induction false} StripRightKeeps(s: string)
    requires PlainBlanks(s)
    ensures Profile(StripRight(s, IsSpace)) == Profile(s)
  {
    hide Profile;
    if s != "" && IsSpace(s[|s| - 1]) {
      StripRightKeeps(s[..|s| - 1]);
      DropLastBlank(s[..|s| - 1], s[|s| - 1]);
      assert s == s[..|s| - 1] + [s[|s| - 1]];
    }
  }

  lemma {:induction false} StripLeftIsSuffix(s: string, chars: char -> bool)
    ensures forall c :: c in StripLeft(s, chars) ==> c in s
  {
    if s != "" && chars(s[0]) {
      StripLeftIsSuffix(s[1..], chars);
    }
  }

  lemma {:induction false} StripRightIsPrefix(s: string, chars: char -> bool)
    ensures forall c :: c in StripRight(s, chars) ==> c in s
  {
    if s != "" && chars(s[|s| - 1]) {
      StripRightIsPrefix(s[..|s| - 1], chars);
    }
  }

  /** What is stored and decoded again is the document with its first entry at the margin. */
  lemma TrimmedProfile(doc: string)
    requires PlainBlanks(doc)
    ensures Profile(Trim(doc) + "\n") == Lowered(Profile(doc))
    ensures forall c :: c in Trim(doc) + "\n" ==> c in doc || c == '\n'
  {
    var t := StripLeft(doc, IsSpace);
    StripLeftLowers(doc);
    StripLeftIsSuffix(doc, IsSpace);
    StripRightKeeps(t);
    StripRightIsPrefix(t, IsSpace);
    DropLastBlank(Trim(doc), '\n');
  }

  lemma FlatBlanks(doc: string)
    requires IsFlat(doc)
    ensures PlainBlanks(doc)
  {
  }

  lemma TrimmedIsFlat(doc: string)
    requires IsFlat(doc)
    ensures IsFlat(Trim(doc) + "\n") && Cores(Profile(Trim(doc) + "\n")) == Cores(Profile(doc))
  {
    FlatBlanks(doc);
    TrimmedProfile(doc);
    hide Profile, IsEntry, Trim, IsWordChar;
    assert Cores(Profile(Trim(doc) + "\n")) == Cores(Profile(doc));
  }

  /** A mapping of words that was read from a document is read again from the stored one exactly
      if it has a single entry or its first entry stood at the margin. */
  lemma {:induction false} StoredIsReadIffAtMargin(load: Loader, mapping: seq<string> -> Decoded, doc: string)
    requires ReadsMappings(load, mapping) && IsFlat(doc) && Profile(doc) != [] && load.decode(doc).Mapping?
    ensures load.decode(Trim(doc) + "\n") == load.decode(doc) <==> |Profile(doc)| == 1 || Profile(doc)[0].indent == 0
    ensures load.decode(Trim(doc) + "\n") != load.decode(doc) ==> load.decode(Trim(doc) + "\n").Unreadable?
  {
    FlatBlanks(doc);
    TrimmedProfile(doc);
    TrimmedIsFlat(doc);
    hide Profile, IsFlat;
    var es := Profile(doc);
    var low := Lowered(es);
    if |es| > 1 && es[0].indent != 0 {
      assert es[0].indent == es[1].indent && low[0].indent == 0 && low[1] == es[1];
      assert !Even(low);
    } else {
      assert low == es || |es| == 1;
      assert Even(low);
    }
  }

  lemma {:induction false} NonBlankHasEntry(doc: string)
    requires Trim(doc) != ""
    ensures Profile(doc) != []
  {
    if doc != "" {
      var rest := Lines(doc[1..]);
      assert doc == [doc[0]] + doc[1..] && rest == [rest[0]] + rest[1..];
      if !IsSpace(doc[0]) {
        NotBlank([doc[0]] + rest[0]);
      } else {
        TrimLeft(doc[0], doc[1..]);
        NonBlankHasEntry(doc[1..]);
        if doc[0] == '\n' {
          assert Lines(doc)[1..] == rest;
        } else {
          TrimLeft(doc[0], rest[0]);
          assert Lines(doc)[1..] == rest[1..];
        }
      }
    }
  }

  // ---------------------------------------------------------------- an indented mapping of two entries

  /** Both entries two spaces in. */
  function IndentedPair(a: string, b: string): string {
    [' ', ' '] + a + ['\n'] + ([' ', ' '] + b)
  }

  lemma EntryChars(e: string)
    requires IsEntry(e)
    ensures e != "" && !IsSpace(e[0]) && !IsSpace(e[|e| - 1]) && ':' in e
    ensures FlatChars(e) && '\n' !in e
  {
    var key, value :| IsWord(key) && IsWord(value) && e == key + ": " + value;
    assert e[|key|] == ':';
  }

  lemma IndentedLine(e: string)
    requires IsEntry(e)
    ensures Trim([' ', ' '] + e) == e && Indent([' ', ' '] + e) == 2
    ensures '\n' !in [' ', ' '] + e && !IsSeparator([' ', ' '] + e)
  {
    EntryChars(e);
    TrimLeft(' ', e);
    TrimLeft(' ', [' '] + e);
    assert [' '] + ([' '] + e) == [' ', ' '] + e;
    StripNothing(e, IsSpace);
    assert ([' ', ' '] + e)[1..] == [' '] + e && ([' '] + e)[1..] == e;
    assert Indent(e) == 0 && Indent([' '] + e) == 1;
    assert e[0] != '-' && "---"[0] == '-';
  }

  lemma PairLines(a: string, b: string)
    requires IsEntry(a) && IsEntry(b)
    ensures Lines(IndentedPair(a, b)) == [[' ', ' '] + a, [' ', ' '] + b]
    ensures Lines(IndentedPair(a, b) + "\n") == [[' ', ' '] + a, [' ', ' '] + b, ""]
  {
    IndentedLine(a);
    IndentedLine(b);
    var x, y := [' ', ' '] + a, [' ', ' '] + b;
    SplitFirst(x, '\n', y);
    SplitWithout(y, '\n');
    LinesSnoc(IndentedPair(a, b), '\n');
    assert IndentedPair(a, b) + ['\n'] == IndentedPair(a, b) + "\n";
    hide SplitOn, Trim, IsEntry;
    assert [x] + [y] == [x, y];
  }

  lemma PairIsOneDoc(a: string, b: string)
    requires IsEntry(a) && IsEntry(b)
    ensures SplitDocs(IndentedPair(a, b)) == [IndentedPair(a, b) + "\n"]
    ensures NoSeparator(Lines(IndentedPair(a, b) + "\n"))
  {
    PairLines(a, b);
    IndentedLine(a);
    IndentedLine(b);
    SpaceIsNoSeparator();
    UnsplitLines(IndentedPair(a, b));
    hide Lines, DocsFrom, Trim, IndentedPair, IsSeparator, IsEntry, Unsplit;
    OneDocIs(Lines(IndentedPair(a, b)), "");
    assert "" + (IndentedPair(a, b) + "\n") == IndentedPair(a, b) + "\n";
  }

  lemma PairProfile(a: string, b: string)
    requires IsEntry(a) && IsEntry(b)
    ensures Profile(IndentedPair(a, b) + "\n") == [Entry(2, a), Entry(2, b)]
    ensures IsFlat(IndentedPair(a, b) + "\n")
  {
    PairLines(a, b);
    IndentedLine(a);
    IndentedLine(b);
    EntryChars(a);
    EntryChars(b);
    TwoEntries([' ', ' '] + a, [' ', ' '] + b);
    PairChars(a, b);
    hide IsWordChar, FlatChars, IndentedPair, Trim, Indent, Lines, IsEntry, IsSeparator, Entries;
  }

  lemma PairChars(a: string, b: string)
    requires FlatChars(a) && FlatChars(b)
    ensures FlatChars(IndentedPair(a, b) + "\n")
  {
    hide IsWordChar;
  }

  lemma TwoEntries(x: string, y: string)
    requires Trim(x) != "" && Trim(y) != ""
    ensures Entries([x, y, ""]) == [Entry(Indent(x), Trim(x)), Entry(Indent(y), Trim(y))]
  {
    hide Trim, Indent;
    assert [x, y, ""] == [x] + ([y] + ([""] + []));
    EmptyIsBlank();
    EntriesFirst(x, [y] + ([""] + []));
    EntriesFirst(y, [""] + []);
    EntriesFirst("", []);
  }

  lemma PairNotBlank(a: string, b: string)
    requires IsEntry(a) && IsEntry(b)
    ensures Trim(IndentedPair(a, b) + "\n") != ""
  {
    EntryChars(a);
    var rest := a + ['\n'] + ([' ', ' '] + b) + "\n";
    assert IndentedPair(a, b) + "\n" == [' '] + ([' '] + rest);
    TrimLeft(' ', [' '] + rest);
    TrimLeft(' ', rest);
    assert rest[0] == a[0];
    NotBlank(rest);
  }
}
