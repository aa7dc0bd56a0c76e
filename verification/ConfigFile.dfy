/**
 * crashlogd's configuration files: parser, printer, comparison, and the lookups
 * that move a cursor over the sections.
 */
module ConfigFile {
  import opened Sequences
  import opened Text
  import opened Fgets

  datatype Pair = Pair(key: string, value: string)
  datatype Section = Section(name: string, pairs: seq<Pair>)

  // ---- Trimming ----

  function TrimEnd(s: string): string
  {
    if s != [] && IsSpace(s[|s| - 1]) then TrimEnd(s[..|s| - 1]) else s
  }

  predicate AllBlank(s: string) { forall i :: 0 <= i < |s| ==> IsSpace(s[i]) }

  /** What goes is a run of blanks at the end, as long as possible. */
  lemma {:induction false} TrimEndRemoves(s: string)
    ensures var t := TrimEnd(s);
            && |t| <= |s| && t == s[..|t|] && AllBlank(s[|t|..])
            && (t == [] || !IsSpace(t[|t| - 1]))
  {
    if s != [] && IsSpace(s[|s| - 1]) {
      var n := |s| - 1;
      TrimEndRemoves(s[..n]);
      var t := TrimEnd(s[..n]);
      assert s[|t|..] == s[..n][|t|..] + [s[n]];
    }
  }

  /** config_trim: a string that starts with a blank is left alone, otherwise trailing blanks go. */
  function Trim(s: string): string
  {
    if s == [] || IsSpace(s[0]) then s else TrimEnd(s)
  }

  method ConfigTrim(s: string) returns (t: string)
    ensures t == Trim(s)
  {
    if |s| <= 0 || IsSpace(s[0]) {
      return s;
    }
    var i := |s| - 1;
    assert s[..i + 1] == s;
    while IsSpace(s[i])
      invariant 0 <= i < |s| && TrimEnd(s[..i + 1]) == TrimEnd(s)
      decreases i
    {
      assert s[..i + 1][..i] == s[..i];
      i := i - 1;
    }
    t := s[..i + 1];
  }

  /** What the function is documented to achieve: no blank at either end. */
  predicate BothEndsClean(t: string)
  {
    t == [] || (!IsSpace(t[0]) && !IsSpace(t[|t| - 1]))
  }

  /** It achieves that exactly for strings that do not start with a blank. */
  lemma TrimsBothEndsExactly(s: string)
    ensures BothEndsClean(Trim(s)) <==> s == [] || !IsSpace(s[0])
  {
    TrimEndRemoves(s);
  }

  /** For instance, not for this one. */
  lemma LeadingBlankStays()
    ensures Trim(" a ") == " a " && !BothEndsClean(Trim(" a "))
  {
  }

  lemma TrimTwice(s: string)
    ensures Trim(Trim(s)) == Trim(s)
  {
    TrimEndRemoves(s);
  }

  lemma TrimNewline(line: string)
    requires line != [] && !IsSpace(line[0]) && !IsSpace(line[|line| - 1])
    ensures Trim(line + "\n") == line && Trim(line) == line
  {
    var s := line + "\n";
    assert s[..|s| - 1] == line && s[|s| - 1] == '\n' && s[0] == line[0];
    assert IsSpace('\n') && TrimEnd(line) == line;
  }

  // ---- Parsing ----

  const MAXLEN: nat := 127

  /** The longest piece `fgets(buff, MAXLEN - 2, f)` delivers. */
  const LONGEST: nat := MAXLEN - 3

  /** generate_section_kv on a trimmed line: a section, a pair for the last section, or nothing. */
  function AddLine(sections: seq<Section>, line: string): seq<Section>
  {
    if line == [] || line[0] == ';' || line[0] == '#' then sections
    else if line[0] == '[' && line[|line| - 1] == ']' then
      sections + [Section(line[1..|line| - 1], [])]
    else
      var eq := IndexOf(line, '=');
      if sections == [] || eq == |line| then sections
      else
        var last := sections[|sections| - 1];
        sections[|sections| - 1 := last.(pairs := last.pairs + [Pair(line[..eq], line[eq + 1..])])]
  }

  type Reader = (seq<Section>, string) -> seq<Section>

  function LineReader(): Reader
  {
    (sections: seq<Section>, piece: string) => AddLine(sections, Trim(piece))
  }

  function Fold(step: Reader, sections: seq<Section>, pieces: seq<string>): seq<Section>
    decreases |pieces|
  {
    if pieces == [] then sections else Fold(step, step(sections, pieces[0]), pieces[1..])
  }

  lemma {:induction false} FoldSplit(step: Reader, sections: seq<Section>, a: seq<string>, b: seq<string>)
    ensures Fold(step, sections, a + b) == Fold(step, Fold(step, sections, a), b)
    decreases |a|
  {
    if a == [] {
      assert a + b == b;
    } else {
      FoldSplit(step, step(sections, a[0]), a[1..], b);
      assert (a + b)[1..] == a[1..] + b;
    }
  }

  /** The sections of a configuration file. */
  function Parse(text: string): seq<Section>
  {
    Fold(LineReader(), [], Chunks(text, LONGEST))
  }

  // ---- Printing ----

  function PairText(p: Pair): string { p.key + "=" + p.value }

  function HeadText(name: string): string { "[" + name + "]" }

  function PairTexts(pairs: seq<Pair>): seq<string>
  {
    if pairs == [] then [] else [PairText(pairs[0])] + PairTexts(pairs[1..])
  }

  /** An empty line, the name in brackets, then the pairs. */
  function SectionTexts(s: Section): seq<string>
  {
    ["", HeadText(s.name)] + PairTexts(s.pairs)
  }

  function AllTexts(sections: seq<Section>): seq<string>
  {
    if sections == [] then [] else SectionTexts(sections[0]) + AllTexts(sections[1..])
  }

  /** The file dump_config writes. */
  function Print(sections: seq<Section>): string { Join(AllTexts(sections)) }

  /** A section is an empty line, its name in brackets, and its pairs. */
  lemma PrintedSection(s: Section, rest: seq<Section>)
    ensures Print([s] + rest) == "\n[" + s.name + "]\n" + Join(PairTexts(s.pairs)) + Print(rest)
  {
    assert ([s] + rest)[1..] == rest;
    JoinSection(s, AllTexts(rest));
  }

  /** A pair is its key, '=' and its value, on a line of its own. */
  lemma PrintedPair(p: Pair, pairs: seq<Pair>)
    ensures Join(PairTexts([p] + pairs)) == p.key + "=" + p.value + "\n" + Join(PairTexts(pairs))
  {
    assert ([p] + pairs)[1..] == pairs;
    assert PairTexts([p] + pairs)[1..] == PairTexts(pairs);
  }

  // ---- Configurations that survive ----

  /**
   * A pair as the parser makes it: a trimmed line that is no comment and no section, or
   * a line that starts with a blank, which is taken over with its line break.
   */
  predicate PairOk(p: Pair)
  {
    var line := PairText(p);
    && '=' !in p.key
    && IsText(line, LONGEST)
    && if IsSpace(line[0]) then IsWhole(line, LONGEST)
       else
         && !IsSpace(line[|line| - 1]) && line[0] != ';' && line[0] != '#'
         && !(line[0] == '[' && line[|line| - 1] == ']')
  }

  predicate SectionOk(s: Section)
  {
    |HeadText(s.name)| <= LONGEST && '\n' !in s.name && forall i :: 0 <= i < |s.pairs| ==> PairOk(s.pairs[i])
  }

  ghost predicate AllOk(sections: seq<Section>)
  {
    forall i :: 0 <= i < |sections| ==> SectionOk(sections[i])
  }

  // ---- Reading what was printed ----

  /** Reading a printed pair adds it to the last section. */
  ghost predicate TakesPair(step: Reader, sections: seq<Section>, s: Section, p: Pair)
  {
    Fold(step, sections + [s], Pieces(PairText(p), LONGEST)) == sections + [Section(s.name, s.pairs + [p])]
  }

  ghost predicate TakesPairs(step: Reader)
  {
    forall sections, s, p :: PairOk(p) ==> TakesPair(step, sections, s, p)
  }

  /** Reading a printed section head adds the section, empty. */
  ghost predicate TakesHead(step: Reader, sections: seq<Section>, name: string)
  {
    Fold(step, sections, Pieces("", LONGEST) + Pieces(HeadText(name), LONGEST)) == sections + [Section(name, [])]
  }

  ghost predicate TakesHeads(step: Reader)
  {
    forall sections, name :: |HeadText(name)| <= LONGEST && '\n' !in name ==> TakesHead(step, sections, name)
  }

  lemma ReaderSkipsBlank(sections: seq<Section>)
    ensures LineReader()(sections, "\n") == sections
  {
    var line := "\n";
    assert line[0] == '\n' && IsSpace(line[0]);
    assert Trim(line) == line;
    IndexIs(line, '=', 1);
    assert AddLine(sections, line) == sections;
  }

  /** A line that trimming leaves alone, or that only gained a line break, is read as one line. */
  lemma ReadsLine(sections: seq<Section>, line: string)
    requires line != [] && Trim(line) == line
    requires !IsWhole(line, LONGEST) ==> Trim(line + "\n") == line
    ensures Fold(LineReader(), sections, Pieces(line, LONGEST)) == AddLine(sections, line)
  {
    var step, pieces := LineReader(), Pieces(line, LONGEST);
    var done := AddLine(sections, line);
    assert step(sections, pieces[0]) == done;
    ReaderSkipsBlank(done);
    if IsWhole(line, LONGEST) {
      assert pieces[1..] == ["\n"] && ["\n"][1..] == [];
      assert Fold(step, done, ["\n"]) == done;
    } else {
      assert pieces[1..] == [];
    }
  }

  lemma AddPair(sections: seq<Section>, s: Section, p: Pair)
    requires PairOk(p)
    ensures AddLine(sections + [s], PairText(p)) == sections + [Section(s.name, s.pairs + [p])]
  {
    var line := PairText(p);
    assert line[..|p.key|] == p.key && line[|p.key|] == '=' && line[|p.key| + 1..] == p.value;
    IndexIs(line, '=', |p.key|);
  }

  lemma ReaderTakesPair(sections: seq<Section>, s: Section, p: Pair)
    requires PairOk(p)
    ensures TakesPair(LineReader(), sections, s, p)
  {
    var line := PairText(p);
    if !IsSpace(line[0]) {
      TrimNewline(line);
    }
    ReadsLine(sections + [s], line);
    AddPair(sections, s, p);
  }

  lemma ReaderTakesHead(sections: seq<Section>, name: string)
    requires |HeadText(name)| <= LONGEST && '\n' !in name
    ensures TakesHead(LineReader(), sections, name)
  {
    var head := HeadText(name);
    TrimNewline(head);
    assert head[1..|head| - 1] == name;
    assert "" + "\n" == "\n";
    assert Pieces("", LONGEST) == ["\n"];
    ReaderSkipsBlank(sections);
    ReadsLine(sections, head);
    assert (["\n"] + Pieces(head, LONGEST))[1..] == Pieces(head, LONGEST);
  }

  lemma ReaderTakes()
    ensures TakesPairs(LineReader()) && TakesHeads(LineReader())
  {
    forall sections, s: Section, p | PairOk(p)
      ensures TakesPair(LineReader(), sections, s, p)
    {
      ReaderTakesPair(sections, s, p);
    }
    forall sections, name | |HeadText(name)| <= LONGEST && '\n' !in name
      ensures TakesHead(LineReader(), sections, name)
    {
      ReaderTakesHead(sections, name);
    }
  }

  lemma {:induction false} PairsRead(step: Reader, sections: seq<Section>, s: Section, pairs: seq<Pair>)
    requires TakesPairs(step) && forall i :: 0 <= i < |pairs| ==> PairOk(pairs[i])
    ensures Fold(step, sections + [s], AllPieces(PairTexts(pairs), LONGEST)) == sections + [Section(s.name, s.pairs + pairs)]
    decreases |pairs|
  {
    if pairs == [] {
      assert s.pairs + pairs == s.pairs;
    } else {
      var s' := Section(s.name, s.pairs + [pairs[0]]);
      assert TakesPair(step, sections, s, pairs[0]);
      PairsRead(step, sections, s', pairs[1..]);
      PairTextsPieces(pairs);
      FoldSplit(step, sections + [s], Pieces(PairText(pairs[0]), LONGEST), AllPieces(PairTexts(pairs[1..]), LONGEST));
      assert s.pairs + [pairs[0]] + pairs[1..] == s.pairs + pairs;
    }
  }

  lemma PairTextsPieces(pairs: seq<Pair>)
    requires pairs != []
    ensures AllPieces(PairTexts(pairs), LONGEST) ==
            Pieces(PairText(pairs[0]), LONGEST) + AllPieces(PairTexts(pairs[1..]), LONGEST)
  {
    assert PairTexts(pairs)[1..] == PairTexts(pairs[1..]);
  }

  lemma AllTextsPieces(sections: seq<Section>)
    requires sections != []
    ensures AllPieces(AllTexts(sections), LONGEST) ==
            AllPieces(SectionTexts(sections[0]), LONGEST) + AllPieces(AllTexts(sections[1..]), LONGEST)
  {
    AllPiecesSplit(SectionTexts(sections[0]), AllTexts(sections[1..]), LONGEST);
  }

  lemma SectionRead(step: Reader, sections: seq<Section>, s: Section)
    requires TakesPairs(step) && TakesHeads(step) && SectionOk(s)
    ensures Fold(step, sections, AllPieces(SectionTexts(s), LONGEST)) == sections + [s]
  {
    var head := ["", HeadText(s.name)];
    AllPiecesSplit(head, PairTexts(s.pairs), LONGEST);
    HeadPieces(s.name);
    assert TakesHead(step, sections, s.name);
    FoldSplit(step, sections, AllPieces(head, LONGEST), AllPieces(PairTexts(s.pairs), LONGEST));
    PairsRead(step, sections, Section(s.name, []), s.pairs);
    assert [] + s.pairs == s.pairs;
  }

  lemma HeadPieces(name: string)
    ensures AllPieces(["", HeadText(name)], LONGEST) == Pieces("", LONGEST) + Pieces(HeadText(name), LONGEST)
  {
    var head := ["", HeadText(name)];
    assert head[1..] == [HeadText(name)] && head[1..][1..] == [];
    assert AllPieces(head[1..], LONGEST) == Pieces(HeadText(name), LONGEST) + [];
  }

  lemma {:induction false} SectionsRead(step: Reader, before: seq<Section>, sections: seq<Section>)
    requires TakesPairs(step) && TakesHeads(step) && AllOk(sections)
    ensures Fold(step, before, AllPieces(AllTexts(sections), LONGEST)) == before + sections
    decreases |sections|
  {
    if sections == [] {
      assert before + sections == before;
    } else {
      AllTextsPieces(sections);
      FoldSplit(step, before, AllPieces(SectionTexts(sections[0]), LONGEST), AllPieces(AllTexts(sections[1..]), LONGEST));
      SectionRead(step, before, sections[0]);
      SectionsRead(step, before + [sections[0]], sections[1..]);
      assert before + [sections[0]] + sections[1..] == before + sections;
    }
  }

  ghost predicate AreTexts(lines: seq<string>)
  {
    forall i :: 0 <= i < |lines| ==> IsText(lines[i], LONGEST)
  }

  lemma {:induction false} PairTextsFit(pairs: seq<Pair>)
    requires forall i :: 0 <= i < |pairs| ==> PairOk(pairs[i])
    ensures AreTexts(PairTexts(pairs))
  {
    if pairs != [] {
      PairTextsFit(pairs[1..]);
    }
  }

  lemma {:induction false} AllTextsFit(sections: seq<Section>)
    requires AllOk(sections)
    ensures AreTexts(AllTexts(sections))
  {
    if sections != [] {
      AllTextsFit(sections[1..]);
      PairTextsFit(sections[0].pairs);
      var head := HeadText(sections[0].name);
      assert head[..|head| - 1] == "[" + sections[0].name;
    }
  }

  /** Parsing what was printed gives the same configuration. */
  lemma RoundTrip(sections: seq<Section>)
    requires AllOk(sections)
    ensures Parse(Print(sections)) == sections
  {
    AllTextsFit(sections);
    ChunksOfJoin(AllTexts(sections), LONGEST);
    ReaderTakes();
    SectionsRead(LineReader(), [], sections);
    assert [] + sections == sections;
  }

  // ---- What the parser produces ----

  /** The piece is taken over as it stands but would gain a line break when printed. */
  predicate Loose(piece: string)
  {
    piece != [] && IsSpace(piece[0]) && '=' in piece && !IsWhole(piece, LONGEST)
  }

  lemma TrimmedPiece(piece: string)
    requires IsPiece(piece, LONGEST) && !IsSpace(piece[0])
    ensures var line := Trim(piece);
            && 1 <= |line| <= LONGEST && line[0] == piece[0] && !IsSpace(line[|line| - 1])
            && '\n' !in line
  {
    TrimEndRemoves(piece);
    var line := Trim(piece);
    assert piece[0..] == piece;
    forall i | 0 <= i < |line|
      ensures line[i] != '\n'
    {
      assert i < |line| - 1 ==> line[i] == piece[..|piece| - 1][i];
    }
  }

  /** The pair a line stands for prints as that line. */
  lemma LinePair(line: string)
    requires '=' in line
    ensures var eq := IndexOf(line, '=');
            && eq < |line| && '=' !in line[..eq] && PairText(Pair(line[..eq], line[eq + 1..])) == line
  {
    IndexFinds(line, '=');
    JoinAt(line, IndexOf(line, '='));
  }

  lemma JoinAt(line: string, eq: nat)
    requires eq < |line| && line[eq] == '='
    ensures PairText(Pair(line[..eq], line[eq + 1..])) == line
  {
  }

  /** Every pair added from a line that is kept as a whole prints back as that line. */
  lemma LineKeepsOk(sections: seq<Section>, line: string)
    requires AllOk(sections) && IsText(line, LONGEST) && line != []
    requires if IsSpace(line[0]) then '=' in line ==> IsWhole(line, LONGEST) else !IsSpace(line[|line| - 1]) && '\n' !in line
    ensures AllOk(AddLine(sections, line))
  {
    if line[0] == ';' || line[0] == '#' {
    } else if line[0] == '[' && line[|line| - 1] == ']' {
      var name := line[1..|line| - 1];
      assert HeadText(name) == line;
      assert SectionOk(Section(name, []));
    } else if '=' in line && sections != [] {
      LinePair(line);
      var eq := IndexOf(line, '=');
      PairAddedOk(sections, Pair(line[..eq], line[eq + 1..]));
    } else {
      IndexFinds(line, '=');
    }
  }

  lemma PairAddedOk(sections: seq<Section>, p: Pair)
    requires AllOk(sections) && sections != [] && PairOk(p)
    ensures var last := sections[|sections| - 1];
            AllOk(sections[|sections| - 1 := last.(pairs := last.pairs + [p])])
  {
    var last := sections[|sections| - 1];
    assert SectionOk(last.(pairs := last.pairs + [p]));
  }

  lemma PieceKeepsOk(sections: seq<Section>, piece: string)
    requires AllOk(sections) && IsPiece(piece, LONGEST) && (Loose(piece) ==> sections == [])
    ensures AllOk(LineReader()(sections, piece))
  {
    if Loose(piece) {
      LooseIgnored(piece);
    } else {
      if !IsSpace(piece[0]) {
        TrimmedPiece(piece);
      }
      LineKeepsOk(sections, Trim(piece));
    }
  }

  lemma LooseIgnored(piece: string)
    requires Loose(piece)
    ensures AddLine([], Trim(piece)) == []
  {
  }

  lemma {:induction false} PiecesKeepOk(sections: seq<Section>, pieces: seq<string>)
    requires AllOk(sections)
    requires forall i :: 0 <= i < |pieces| ==> IsPiece(pieces[i], LONGEST) && IsWhole(pieces[i], LONGEST)
    ensures AllOk(Fold(LineReader(), sections, pieces))
    decreases |pieces|
  {
    if pieces != [] {
      PieceKeepsOk(sections, pieces[0]);
      PiecesKeepOk(LineReader()(sections, pieces[0]), pieces[1..]);
    }
  }

  /** The sections read before the last piece of a file. */
  function BeforeLast(text: string): seq<Section>
    requires text != [] && Chunks(text, LONGEST) != []
  {
    var c := Chunks(text, LONGEST);
    Fold(LineReader(), [], c[..|c| - 1])
  }

  /**
   * The last piece of the file lies behind a section, is unfinished, starts with a blank,
   * holds a '=' and does not fill the read buffer.
   */
  ghost predicate Dangling(text: string)
  {
    var c := Chunks(text, LONGEST);
    text != [] && c != [] && Loose(c[|c| - 1]) && BeforeLast(text) != []
  }

  lemma ParseSplits(text: string)
    requires text != []
    ensures Chunks(text, LONGEST) != []
    ensures var c := Chunks(text, LONGEST);
            && IsPiece(c[|c| - 1], LONGEST) && AllOk(BeforeLast(text))
            && Parse(text) == LineReader()(BeforeLast(text), c[|c| - 1])
  {
    LastChunk(text, LONGEST);
    ChunksArePieces(text, LONGEST);
    FoldLast(Chunks(text, LONGEST));
  }

  lemma FoldLast(c: seq<string>)
    requires c != [] && AreChunks(c, LONGEST)
    ensures var before := Fold(LineReader(), [], c[..|c| - 1]);
            && IsPiece(c[|c| - 1], LONGEST) && AllOk(before)
            && Fold(LineReader(), [], c) == LineReader()(before, c[|c| - 1])
  {
    var front, last := c[..|c| - 1], c[|c| - 1];
    assert c == front + [last];
    FoldSplit(LineReader(), [], front, [last]);
    assert [last][1..] == [];
    PiecesKeepOk([], front);
  }

  /** All other files yield configurations that survive printing. */
  lemma ParsedOk(text: string)
    requires !Dangling(text)
    ensures AllOk(Parse(text))
  {
    if text != [] {
      ParseSplits(text);
      PieceKeepsOk(BeforeLast(text), Chunks(text, LONGEST)[|Chunks(text, LONGEST)| - 1]);
    }
  }

  lemma DanglingSpoils(text: string)
    requires Dangling(text)
    ensures !AllOk(Parse(text))
  {
    ParseSplits(text);
    var c := Chunks(text, LONGEST);
    var line, sections := c[|c| - 1], BeforeLast(text);
    LinePair(line);
    var p := Pair(line[..IndexOf(line, '=')], line[IndexOf(line, '=') + 1..]);
    var s := Parse(text)[|sections| - 1];
    assert s.pairs[|s.pairs| - 1] == p && !PairOk(p);
    assert !SectionOk(s);
  }

  lemma {:induction false} JoinEnds(lines: seq<string>)
    requires lines != []
    ensures Join(lines) != [] && Join(lines)[|Join(lines)| - 1] == '\n'
  {
    if |lines| > 1 {
      JoinEnds(lines[1..]);
    }
  }

  lemma PrintedNeverDangles(sections: seq<Section>)
    ensures !Dangling(Print(sections))
  {
    var text := Print(sections);
    if text != [] {
      JoinEnds(AllTexts(sections));
      LastChunk(text, LONGEST);
      var c := Chunks(text, LONGEST);
      var last := c[|c| - 1];
      assert last != [] ==> last[|last| - 1] == text[|text| - |last|..][|last| - 1] == '\n';
    }
  }

  /** A configuration survives printing and parsing exactly when it is one the parser could have made. */
  lemma RoundTripExactly(sections: seq<Section>)
    ensures Parse(Print(sections)) == sections <==> AllOk(sections)
  {
    if AllOk(sections) {
      RoundTrip(sections);
    }
    PrintedNeverDangles(sections);
    ParsedOk(Print(sections));
  }

  /** Reading a file, writing it and reading it again changes nothing, exactly unless the file dangles. */
  lemma ReloadExactly(text: string)
    ensures Parse(Print(Parse(text))) == Parse(text) <==> !Dangling(text)
  {
    RoundTripExactly(Parse(text));
    if Dangling(text) {
      DanglingSpoils(text);
    } else {
      ParsedOk(text);
    }
  }

  lemma ExampleChunks()
    ensures Chunks("[s]\n a=b", LONGEST) == ["[s]\n", " a=b"]
  {
    var head, tail := "[s]\n", " a=b";
    assert "[s]\n a=b" == head + tail;
    assert head[..|head| - 1] == "[s]";
    FirstChunk(head, tail, LONGEST);
    IndexIs(tail, '\n', 4);
    assert tail[..4] == tail && tail[4..] == [];
    assert Chunks(tail, LONGEST) == [tail] + Chunks(tail[4..], LONGEST);
  }

  lemma ExampleHead()
    ensures LineReader()([], "[s]\n") == [Section("s", [])]
  {
    TrimNewline("[s]");
    assert "[s]" + "\n" == "[s]\n";
    assert "[s]"[1..2] == "s";
  }

  lemma ExampleTail()
    ensures Loose(" a=b")
    ensures LineReader()([Section("s", [])], " a=b") == [Section("s", [Pair(" a", "b")])]
  {
    var tail, s, p := " a=b", Section("s", []), Pair(" a", "b");
    assert tail[0] == ' ' && tail[2] == '=' && tail[3] == 'b';
    assert tail[..2] == p.key && tail[3..] == p.value;
    IndexIs(tail, '=', 2);
    assert Trim(tail) == tail;
    assert s.pairs + [p] == [p];
    assert AddLine([s], tail) == [s][0 := Section("s", [p])];
  }

  /** A file on which it does change: the value "b" comes back as "b" and a line break. */
  lemma DanglingExample()
    ensures var text := "[s]\n a=b";
            && Dangling(text)
            && Parse(text) == [Section("s", [Pair(" a", "b")])]
            && Parse(Print(Parse(text))) != Parse(text)
  {
    var text := "[s]\n a=b";
    ExampleChunks();
    ExampleHead();
    ExampleTail();
    var c := Chunks(text, LONGEST);
    assert c[..1] == ["[s]\n"] && ["[s]\n"][1..] == [];
    ParseSplits(text);
    ReloadExactly(text);
  }

  // ---- What a file holds, piece by piece ----

  /** A piece that opens a section: its trimmed text is in brackets. */
  predicate IsHead(piece: string)
  {
    var line := Trim(piece);
    |line| >= 2 && line[0] == '[' && line[|line| - 1] == ']'
  }

  /** A piece that holds a pair: neither a head nor a comment, with a '='. */
  predicate IsPair(piece: string)
  {
    var line := Trim(piece);
    line != [] && line[0] != ';' && line[0] != '#' && !IsHead(piece) && '=' in line
  }

  /** The pair of such a piece: what is before and behind the first '='. */
  ghost predicate IsPairOf(piece: string, p: Pair)
  {
    '=' !in p.key && Trim(piece) == p.key + "=" + p.value
  }

  /**
   * One piece: a head adds an empty section with the text in brackets; a pair goes to the
   * end of the last section, if there is one; everything else changes nothing.
   */
  lemma PieceRead(sections: seq<Section>, piece: string)
    ensures var after, line := LineReader()(sections, piece), Trim(piece);
            && (IsHead(piece) ==> after == sections + [Section(line[1..|line| - 1], [])])
            && (IsPair(piece) && sections != [] ==>
                  exists p :: IsPairOf(piece, p) && after == WithPair(sections, p))
            && (!IsHead(piece) && (!IsPair(piece) || sections == []) ==> after == sections)
  {
    var line := Trim(piece);
    IndexFinds(line, '=');
    if IsPair(piece) && sections != [] {
      LinePair(line);
      var eq := IndexOf(line, '=');
      assert IsPairOf(piece, Pair(line[..eq], line[eq + 1..]));
    }
  }

  /** A pair added to the last section. */
  function WithPair(sections: seq<Section>, p: Pair): seq<Section>
    requires sections != []
  {
    var last := sections[|sections| - 1];
    sections[..|sections| - 1] + [Section(last.name, last.pairs + [p])]
  }

  /** There is only one such pair. */
  lemma PairOfUnique(piece: string, p: Pair, q: Pair)
    requires IsPairOf(piece, p) && IsPairOf(piece, q)
    ensures p == q
  {
    var line := Trim(piece);
    assert line[..|p.key|] == p.key && line[|p.key|] == '=' && line[|p.key| + 1..] == p.value;
    assert line[..|q.key|] == q.key && line[|q.key|] == '=' && line[|q.key| + 1..] == q.value;
    IndexIs(line, '=', |p.key|);
    IndexIs(line, '=', |q.key|);
  }

  // ---- Lookups ----

  /** The first section of that name, from `i` on. */
  function FirstNamed(sections: seq<Section>, name: string, i: nat): (r: Option<nat>)
    requires i <= |sections|
    ensures r.Some? ==> i <= r.value < |sections| && sections[r.value].name == name
    ensures forall k :: i <= k < (if r.Some? then r.value else |sections|) ==> sections[k].name != name
    decreases |sections| - i
  {
    if i == |sections| then None
    else if sections[i].name == name then Some(i)
    else FirstNamed(sections, name, i + 1)
  }

  /** What find_section returns, depending on where the cursor stands. */
  function Found(sections: seq<Section>, cursor: Option<nat>, name: string): Option<nat>
    requires cursor.Some? ==> cursor.value < |sections|
  {
    if cursor.Some? && sections[cursor.value].name == name then cursor else FirstNamed(sections, name, 0)
  }

  ghost predicate UniqueNames(sections: seq<Section>)
  {
    forall i, j :: 0 <= i < j < |sections| ==> sections[i].name != sections[j].name
  }

  /** The cursor matters exactly when it stands on a later section of the same name. */
  lemma CursorMatters(sections: seq<Section>, cursor: Option<nat>, name: string)
    requires cursor.Some? ==> cursor.value < |sections|
    ensures Found(sections, cursor, name) == FirstNamed(sections, name, 0) <==>
            !(cursor.Some? && sections[cursor.value].name == name
              && exists k :: 0 <= k < cursor.value && sections[k].name == name)
  {
    if cursor.Some? && sections[cursor.value].name == name {
      var r := FirstNamed(sections, name, 0);
      assert r.Some? && r.value <= cursor.value;
    }
  }

  /** With unique names every lookup is a search from the start. */
  lemma CursorIndependent(sections: seq<Section>, cursor: Option<nat>, name: string)
    requires UniqueNames(sections) && (cursor.Some? ==> cursor.value < |sections|)
    ensures Found(sections, cursor, name) == FirstNamed(sections, name, 0)
  {
    CursorMatters(sections, cursor, name);
  }

  /** The value of the first pair with that key. */
  function ValueOf(pairs: seq<Pair>, key: string): Option<string>
  {
    if pairs == [] then None
    else if pairs[0].key == key then Some(pairs[0].value)
    else ValueOf(pairs[1..], key)
  }

  /** `value` is that of the first pair with the key, or nothing if no pair has it. */
  ghost predicate IsValueOf(pairs: seq<Pair>, key: string, value: Option<string>)
  {
    if value.None? then forall i :: 0 <= i < |pairs| ==> pairs[i].key != key
    else exists i :: 0 <= i < |pairs| && pairs[i] == Pair(key, value.value) && forall j :: 0 <= j < i ==> pairs[j].key != key
  }

  lemma {:induction false} ValueOfIs(pairs: seq<Pair>, key: string)
    ensures IsValueOf(pairs, key, ValueOf(pairs, key))
  {
    if pairs != [] && pairs[0].key != key {
      ValueOfIs(pairs[1..], key);
      var value := ValueOf(pairs[1..], key);
      if value.Some? {
        var i :| 0 <= i < |pairs[1..]| && pairs[1..][i] == Pair(key, value.value) && forall j :: 0 <= j < i ==> pairs[1..][j].key != key;
        assert pairs[i + 1] == Pair(key, value.value);
        assert forall j :: 1 <= j < i + 1 ==> pairs[j] == pairs[1..][j - 1];
      } else {
        assert forall i :: 1 <= i < |pairs| ==> pairs[i] == pairs[1..][i - 1];
      }
    } else if pairs != [] {
      assert pairs[0] == Pair(key, pairs[0].value);
    }
  }

  /** A value looked up in a fresh search. */
  function Lookup(sections: seq<Section>, name: string, key: string): Option<string>
  {
    var r := FirstNamed(sections, name, 0);
    if r.None? then None else ValueOf(sections[r.value].pairs, key)
  }

  /** Section names of the form `base "label"`. */
  predicate HasBase(name: string, base: string)
  {
    var pattern := base + " \"";
    |pattern| <= |name| && name[..|pattern|] == pattern
  }

  /** The name is the base, a blank and a quoted label, whose closing quote is not looked at. */
  ghost predicate IsOfBase(name: string, base: string)
  {
    exists rest: string :: name == base + " \"" + rest
  }

  lemma HasBaseExactly(name: string, base: string)
    ensures HasBase(name, base) <==> IsOfBase(name, base)
  {
    var pattern := base + " \"";
    if HasBase(name, base) {
      assert name == pattern + name[|pattern|..];
    }
    if IsOfBase(name, base) {
      var rest: string :| name == pattern + rest;
      assert name[..|pattern|] == pattern;
    }
  }

  /** The next section with that base, from `i` on. */
  function NextBase(sections: seq<Section>, base: string, i: nat): (r: Option<nat>)
    requires i <= |sections|
    ensures r.Some? ==> i <= r.value < |sections| && HasBase(sections[r.value].name, base)
    ensures forall k :: i <= k < (if r.Some? then r.value else |sections|) ==> !HasBase(sections[k].name, base)
    decreases |sections| - i
  {
    if i == |sections| then None
    else if HasBase(sections[i].name, base) then Some(i)
    else NextBase(sections, base, i + 1)
  }

  /** All sections with that base from `i` on, in file order. */
  function BaseSections(sections: seq<Section>, base: string, i: nat): seq<nat>
    requires i <= |sections|
    decreases |sections| - i
  {
    if i == |sections| then []
    else if HasBase(sections[i].name, base) then [i] + BaseSections(sections, base, i + 1)
    else BaseSections(sections, base, i + 1)
  }

  lemma {:induction false} BaseSectionsNext(sections: seq<Section>, base: string, i: nat)
    requires i <= |sections|
    ensures var r := NextBase(sections, base, i);
            BaseSections(sections, base, i) ==
            if r.None? then [] else [r.value] + BaseSections(sections, base, r.value + 1)
    decreases |sections| - i
  {
    if i < |sections| && !HasBase(sections[i].name, base) {
      BaseSectionsNext(sections, base, i + 1);
    }
  }

  /** Exactly the matching sections are listed, each once, in file order. */
  lemma {:induction false} BaseSectionsComplete(sections: seq<Section>, base: string, i: nat)
    requires i <= |sections|
    ensures var all := BaseSections(sections, base, i);
            && (forall k :: k in all <==> i <= k < |sections| && HasBase(sections[k].name, base))
            && (forall a, b :: 0 <= a < b < |all| ==> all[a] < all[b])
    decreases |sections| - i
  {
    if i < |sections| {
      BaseSectionsComplete(sections, base, i + 1);
      if HasBase(sections[i].name, base) {
        ConsLeast(i, BaseSections(sections, base, i + 1));
      }
    }
  }

  /** In terms of the names alone. */
  lemma BaseSectionsAre(sections: seq<Section>, base: string)
    ensures var all := BaseSections(sections, base, 0);
            && (forall k :: k in all <==> 0 <= k < |sections| && IsOfBase(sections[k].name, base))
            && (forall a, b :: 0 <= a < b < |all| ==> all[a] < all[b])
  {
    BaseSectionsComplete(sections, base, 0);
    forall k | 0 <= k < |sections|
      ensures HasBase(sections[k].name, base) <==> IsOfBase(sections[k].name, base)
    {
      HasBaseExactly(sections[k].name, base);
    }
  }

  lemma ConsLeast(x: nat, rest: seq<nat>)
    requires (forall k :: k in rest ==> x < k) && (forall a, b :: 0 <= a < b < |rest| ==> rest[a] < rest[b])
    ensures var all := [x] + rest;
            && (forall k :: k in all <==> k == x || k in rest)
            && (forall a, b :: 0 <= a < b < |all| ==> all[a] < all[b])
  {
    var all := [x] + rest;
    forall a, b | 0 <= a < b < |all|
      ensures all[a] < all[b]
    {
      assert all[b] == rest[b - 1] && rest[b - 1] in rest;
      if a > 0 {
        assert all[a] == rest[a - 1];
      }
    }
  }

  class ConfigHandle {
    var sections: seq<Section>
    /** The section the cursor stands on, if any. */
    var current: Option<nat>

    ghost predicate Valid()
      reads this
    {
      current.Some? ==> current.value < |sections|
    }

    constructor ()
      ensures Valid() && sections == [] && current == None
    {
      sections, current := [], None;
    }

    /**
     * `init_config_file`: the previous configuration is freed, the cursor ends on the
     * last section; without a file there is no configuration left.
     */
    method InitConfigFile(file: Option<string>) returns (rc: int)
      modifies this
      ensures Valid() && rc == (if file.Some? then 0 else -1)
      ensures sections == if file.Some? then Parse(file.value) else []
      ensures current == if sections == [] then None else Some(|sections| - 1)
    {
      sections, current := [], None;
      if file.None? {
        return -1;
      }
      var text := file.value;
      var rest := text;
      ghost var step, goal := LineReader(), Parse(text);
      while rest != []
        invariant Fold(step, sections, Chunks(rest, LONGEST)) == goal
        decreases |rest|
      {
        var n := ChunkLength(rest, LONGEST);
        var line := ConfigTrim(rest[..n]);
        assert Chunks(rest, LONGEST)[1..] == Chunks(rest[n..], LONGEST);
        sections := AddLine(sections, line);
        rest := rest[n..];
      }
      current := if sections == [] then None else Some(|sections| - 1);
      return 0;
    }

    /** `dump_config`. */
    method DumpConfig() returns (text: string)
      ensures text == Print(sections)
    {
      text := "";
      for i := 0 to |sections|
        invariant text + Join(AllTexts(sections[i..])) == Print(sections)
      {
        var s := sections[i];
        var body := DumpPairs(s.pairs);
        ghost var more := AllTexts(sections[i + 1..]);
        assert sections[i..][1..] == sections[i + 1..];
        JoinSection(s, more);
        text := text + ("\n[" + s.name + "]\n" + body);
      }
      assert sections[|sections|..] == [];
    }

    static method DumpPairs(pairs: seq<Pair>) returns (text: string)
      ensures text == Join(PairTexts(pairs))
    {
      text := "";
      for i := 0 to |pairs|
        invariant text + Join(PairTexts(pairs[i..])) == Join(PairTexts(pairs))
      {
        assert pairs[i..][1..] == pairs[i + 1..];
        assert PairTexts(pairs[i..])[1..] == PairTexts(pairs[i + 1..]);
        text := text + (pairs[i].key + "=" + pairs[i].value + "\n");
      }
      assert pairs[|pairs|..] == [];
    }

    /** `find_section`: the cursor ends on the section found, or nowhere. */
    method FindSection(name: string) returns (r: Option<nat>)
      requires Valid()
      modifies this`current
      ensures Valid() && r == current == Found(sections, old(current), name)
    {
      if current.Some? && sections[current.value].name == name {
        return current;
      }
      current := if sections == [] then None else Some(0);
      while current.Some?
        invariant Valid()
        invariant FirstNamed(sections, name, if current.Some? then current.value else |sections|) == FirstNamed(sections, name, 0)
        decreases |sections| - if current.Some? then current.value else |sections|
      {
        if sections[current.value].name == name {
          return current;
        }
        current := if current.value + 1 < |sections| then Some(current.value + 1) else None;
      }
      return None;
    }

    /** `get_value`. */
    method GetValue(section: string, key: string) returns (value: Option<string>)
      requires Valid()
      modifies this`current
      ensures Valid() && current == Found(sections, old(current), Trim(section))
      ensures value == if current.None? then None else ValueOf(sections[current.value].pairs, key)
      ensures IsValueOf(if current.None? then [] else sections[current.value].pairs, key, value)
      ensures UniqueNames(sections) ==> value == Lookup(sections, Trim(section), key)
    {
      var name := ConfigTrim(section);
      var found := FindSection(name);
      if UniqueNames(sections) {
        CursorIndependent(sections, old(current), name);
      }
      if found.None? {
        return None;
      }
      var pairs := sections[found.value].pairs;
      ValueOfIs(pairs, key);
      for i := 0 to |pairs|
        invariant ValueOf(pairs[i..], key) == ValueOf(pairs, key)
      {
        if pairs[i].key == key {
          return Some(pairs[i].value);
        }
      }
      return None;
    }

    /** `find_base_section`, starting behind the cursor when `next` is set. */
    method FindBaseSection(base: string, next: bool) returns (r: Option<nat>)
      requires Valid()
      modifies this`current
      ensures Valid() && r == current
      ensures r == if old(current).None? then None
                   else NextBase(sections, base, if next then old(current).value + 1 else old(current).value)
    {
      if next && current.Some? {
        current := if current.value + 1 < |sections| then Some(current.value + 1) else None;
      }
      ghost var from := if current.Some? then current.value else |sections|;
      while current.Some?
        invariant Valid()
        invariant NextBase(sections, base, if current.Some? then current.value else |sections|) == NextBase(sections, base, from)
        decreases |sections| - if current.Some? then current.value else |sections|
      {
        if HasBase(sections[current.value].name, base) {
          return current;
        }
        current := if current.value + 1 < |sections| then Some(current.value + 1) else None;
      }
      return None;
    }

    /** `get_first_section_name`. */
    method GetFirstSection(base: string) returns (r: Option<nat>)
      modifies this`current
      ensures Valid() && r == current == NextBase(sections, Trim(base), 0)
    {
      var trimmed := ConfigTrim(base);
      current := if sections == [] then None else Some(0);
      r := FindBaseSection(trimmed, false);
    }

    /** `get_next_section_name`. */
    method GetNextSection(base: string) returns (r: Option<nat>)
      requires Valid()
      modifies this`current
      ensures Valid() && r == current
      ensures r == if old(current).None? then None else NextBase(sections, Trim(base), old(current).value + 1)
    {
      var trimmed := ConfigTrim(base);
      r := FindBaseSection(trimmed, true);
    }

    /**
     * `sk_exists`, asked with the name of the section the cursor stands on: the name is
     * the section's own string, so it is trimmed in place.
     */
    method HasKeyHere(at: nat, key: string) returns (found: bool)
      requires Valid() && current == Some(at)
      modifies this
      ensures Valid() && current == Some(at)
      ensures sections == old(sections)[at := Renamed(old(sections)[at])]
      ensures found <==> ValueOf(old(sections)[at].pairs, key).Some?
    {
      var name := ConfigTrim(sections[at].name);
      sections := sections[at := Section(name, sections[at].pairs)];
      TrimTwice(old(sections)[at].name);
      var value := GetValue(name, key);
      found := value.Some?;
    }

    /** One round of the scan: the lookup in the section just returned, then the next section. */
    method Visit(base: string, key: string, at: nat, ghost all: seq<Section>) returns (found: bool, next: Option<nat>)
      requires Valid() && current == Some(at) && TrimmedBelow(all, sections, at)
      modifies this
      ensures Valid() && TrimmedBelow(all, sections, at + 1)
      ensures found <==> ValueOf(all[at].pairs, key).Some?
      ensures found ==> next == current == NextBase(all, Trim(base), at + 1)
    {
      next := None;
      found := HasKeyHere(at, key);
      if found {
        NextBaseSame(all, sections, Trim(base), at + 1);
        next := GetNextSection(base);
      }
    }

    /**
     * The scan of load_config_by_pattern: it visits the sections with the base name in
     * file order, looking up a key in each, and stops at the first one without the key.
     * No pair changes; names can only lose trailing blanks.
     */
    method LoadByPattern(base: string, key: string) returns (visited: seq<nat>)
      modifies this
      ensures visited == WithKey(old(sections), BaseSections(old(sections), Trim(base), 0), key)
      ensures TrimmedBelow(old(sections), sections, |old(sections)|)
    {
      visited := [];
      ghost var all := sections;
      ghost var goal := WithKey(all, BaseSections(all, Trim(base), 0), key);
      var at := GetFirstSection(base);
      ScanIsWithKey(all, Trim(base), key, 0);
      while at.Some?
        invariant Valid() && at == current
        invariant TrimmedBelow(all, sections, if at.Some? then at.value else |all|)
        invariant visited + ScanFrom(all, Trim(base), key, at) == goal
        decreases if at.Some? then |all| - at.value else 0
      {
        var here := at.value;
        var found;
        found, at := Visit(base, key, at.value, all);
        if !found {
          return;
        }
        ScanStep(all, Trim(base), key, here, visited);
        visited := visited + [here];
      }
    }
  }

  lemma ScanStep(sections: seq<Section>, base: string, key: string, at: nat, visited: seq<nat>)
    requires at < |sections| && ValueOf(sections[at].pairs, key).Some?
    ensures visited + ScanFrom(sections, base, key, Some(at)) ==
            (visited + [at]) + ScanFrom(sections, base, key, NextBase(sections, base, at + 1))
  {
  }

  /** The same sections, but for names that were trimmed below `n`. */
  ghost predicate TrimmedBelow(all: seq<Section>, now: seq<Section>, n: nat)
  {
    |now| == |all| && forall i :: 0 <= i < |all| ==> now[i] == all[i] || (i < n && now[i] == Renamed(all[i]))
  }

  /** A section whose name was trimmed. */
  function Renamed(s: Section): Section { Section(Trim(s.name), s.pairs) }

  lemma {:induction false} NextBaseSame(a: seq<Section>, b: seq<Section>, base: string, i: nat)
    requires i <= |a| == |b| && forall k :: i <= k < |a| ==> a[k] == b[k]
    ensures NextBase(a, base, i) == NextBase(b, base, i)
    decreases |a| - i
  {
    if i < |a| && !HasBase(a[i].name, base) {
      NextBaseSame(a, b, base, i + 1);
    }
  }

  /** If every section with the base name has the key, the scan visits them all. */
  lemma {:induction false} AllWithKey(sections: seq<Section>, list: seq<nat>, key: string)
    requires forall k :: 0 <= k < |list| ==> list[k] < |sections| && ValueOf(sections[list[k]].pairs, key).Some?
    ensures WithKey(sections, list, key) == list
  {
    if list != [] {
      AllWithKey(sections, list[1..], key);
    }
  }

  /** The sections a scan visits from section `r` on. */
  function ScanFrom(sections: seq<Section>, base: string, key: string, r: Option<nat>): seq<nat>
    decreases if r.Some? then |sections| - r.value else -1
  {
    if r.None? || r.value >= |sections| || ValueOf(sections[r.value].pairs, key).None? then []
    else [r.value] + ScanFrom(sections, base, key, NextBase(sections, base, r.value + 1))
  }

  lemma {:induction false} ScanIsWithKey(sections: seq<Section>, base: string, key: string, i: nat)
    requires i <= |sections|
    ensures ScanFrom(sections, base, key, NextBase(sections, base, i)) ==
            WithKey(sections, BaseSections(sections, base, i), key)
    decreases |sections| - i
  {
    var r := NextBase(sections, base, i);
    BaseSectionsNext(sections, base, i);
    if r.Some? {
      var all := BaseSections(sections, base, i);
      assert all[1..] == BaseSections(sections, base, r.value + 1);
      ScanIsWithKey(sections, base, key, r.value + 1);
    }
  }

  /** The leading sections of a list that have the key. */
  function WithKey(sections: seq<Section>, list: seq<nat>, key: string): seq<nat>
  {
    if list == [] || list[0] >= |sections| || ValueOf(sections[list[0]].pairs, key).None? then []
    else [list[0]] + WithKey(sections, list[1..], key)
  }

  /** It is the longest front part of the list whose sections all have the key. */
  lemma {:induction false} WithKeyIs(sections: seq<Section>, list: seq<nat>, key: string)
    requires forall k :: 0 <= k < |list| ==> list[k] < |sections|
    ensures var n := |WithKey(sections, list, key)|;
            && n <= |list| && WithKey(sections, list, key) == list[..n]
            && (forall k :: 0 <= k < n ==> exists p :: p in sections[list[k]].pairs && p.key == key)
            && (n < |list| ==> forall p :: p in sections[list[n]].pairs ==> p.key != key)
  {
    if list != [] {
      var pairs := sections[list[0]].pairs;
      ValueOfIs(pairs, key);
      if ValueOf(pairs, key).Some? {
        WithKeyIs(sections, list[1..], key);
        assert forall k :: 1 <= k < |list| ==> list[k] == list[1..][k - 1];
        var n := |WithKey(sections, list[1..], key)|;
        assert list[..n + 1] == [list[0]] + list[1..][..n];
        var i :| 0 <= i < |pairs| && pairs[i] == Pair(key, ValueOf(pairs, key).value);
        assert pairs[i] in pairs && pairs[i].key == key;
      }
    }
  }

  lemma JoinSection(s: Section, more: seq<string>)
    ensures Join(SectionTexts(s) + more) == "\n[" + s.name + "]\n" + Join(PairTexts(s.pairs)) + Join(more)
  {
    var lines := SectionTexts(s) + more;
    assert lines[1..] == [HeadText(s.name)] + (PairTexts(s.pairs) + more);
    assert lines[1..][1..] == PairTexts(s.pairs) + more;
    JoinSplit(PairTexts(s.pairs), more);
    JoinHead("[" + s.name + "]", Join(PairTexts(s.pairs)), Join(more));
    assert "\n[" + s.name + "]\n" == "\n" + ("[" + s.name + "]") + "\n";
  }

  lemma JoinHead(head: string, body: string, more: string)
    ensures "" + "\n" + (head + "\n" + (body + more)) == ("\n" + head + "\n") + body + more
  {
  }

  /** `cmp_config`: 0 exactly when both are there and have the same sections, pairs and order. */
  method CmpConfig(h1: ConfigHandle?, h2: ConfigHandle?) returns (r: int)
    ensures r == 0 || r == 1
    ensures r == 0 <==> h1 != null && h2 != null && h1.sections == h2.sections
  {
    if h1 == null || h2 == null {
      return 1;
    }
    var a, b := h1.sections, h2.sections;
    var i := 0;
    while i < |a| && i < |b|
      invariant 0 <= i <= |a| && i <= |b| && a[..i] == b[..i]
    {
      if a[i].name != b[i].name {
        return 1;
      }
      var same := CmpPairs(a[i].pairs, b[i].pairs);
      if !same {
        return 1;
      }
      i := i + 1;
    }
    r := if |a| != |b| then 1 else 0;
    assert a[..i] == b[..i];
  }

  /** The inner loop of cmp_config. */
  method CmpPairs(a: seq<Pair>, b: seq<Pair>) returns (same: bool)
    ensures same <==> a == b
  {
    var i := 0;
    while i < |a| && i < |b|
      invariant 0 <= i <= |a| && i <= |b| && a[..i] == b[..i]
    {
      if a[i].key != b[i].key {
        return false;
      }
      if a[i].value != b[i].value {
        return false;
      }
      i := i + 1;
    }
    return |a| == |b|;
  }

  /** A configuration written by dump_config and read back compares equal exactly when it can survive. */
  method DumpAndReload(h: ConfigHandle) returns (copy: ConfigHandle, r: int)
    ensures fresh(copy) && (r == 0 <==> copy.sections == h.sections)
    ensures r == 0 <==> AllOk(h.sections)
  {
    var text := h.DumpConfig();
    copy := new ConfigHandle();
    var _ := copy.InitConfigFile(Some(text));
    RoundTripExactly(h.sections);
    r := CmpConfig(h, copy);
  }

  /** So a configuration read from a file that does not dangle can be dumped and reloaded. */
  method LoadDumpReload(text: string) returns (r: int)
    ensures r == 0 <==> !Dangling(text)
  {
    var h := new ConfigHandle();
    var _ := h.InitConfigFile(Some(text));
    ReloadExactly(text);
    RoundTripExactly(Parse(text));
    var _, rc := DumpAndReload(h);
    r := rc;
  }
}
