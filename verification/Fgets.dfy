/**
 * Reading a text file line by line with fgets and a buffer of fixed size: a line
 * that does not fit arrives in pieces.
 */
module Fgets {
  import opened Sequences
  import opened Text

  /** How many characters fgets takes: up to and including a line break, at most `limit`. */
  function ChunkLength(text: string, limit: nat): (n: nat)
    requires text != [] && limit >= 1
    ensures 1 <= n <= |text| && n <= limit
  {
    var eol := IndexOf(text, '\n');
    Min(if eol < |text| then eol + 1 else eol, limit)
  }

  /** The pieces fgets hands out, one after the other. */
  function Chunks(text: string, limit: nat): seq<string>
    requires limit >= 1
    decreases |text|
  {
    if text == [] then []
    else
      var n := ChunkLength(text, limit);
      [text[..n]] + Chunks(text[n..], limit)
  }

  /** A piece fits the buffer and has a line break at its end at most. */
  predicate IsPiece(piece: string, limit: nat)
  {
    1 <= |piece| <= limit && '\n' !in piece[..|piece| - 1]
  }

  /** The piece is a whole line, or fills the buffer. */
  predicate IsWhole(piece: string, limit: nat)
    requires piece != []
  {
    piece[|piece| - 1] == '\n' || |piece| == limit
  }

  /** Only the last piece of a file can be neither. */
  ghost predicate AreChunks(c: seq<string>, limit: nat)
  {
    forall i :: 0 <= i < |c| ==> IsPiece(c[i], limit) && (i < |c| - 1 ==> IsWhole(c[i], limit))
  }

  lemma ChunksGrow(first: string, rest: seq<string>, limit: nat)
    requires IsPiece(first, limit) && (rest != [] ==> IsWhole(first, limit)) && AreChunks(rest, limit)
    ensures AreChunks([first] + rest, limit)
  {
    var c := [first] + rest;
    assert forall i :: 1 <= i < |c| ==> c[i] == rest[i - 1];
  }

  lemma {:induction false} ChunksArePieces(text: string, limit: nat)
    requires limit >= 1
    ensures AreChunks(Chunks(text, limit), limit)
    decreases |text|
  {
    if text != [] {
      var n := ChunkLength(text, limit);
      ChunksArePieces(text[n..], limit);
      FirstIsPiece(text, limit);
      ChunksGrow(text[..n], Chunks(text[n..], limit), limit);
    }
  }

  lemma FirstIsPiece(text: string, limit: nat)
    requires limit >= 1 && text != []
    ensures var n := ChunkLength(text, limit);
            IsPiece(text[..n], limit) && (n < |text| ==> IsWhole(text[..n], limit))
  {
    var n, eol := ChunkLength(text, limit), IndexOf(text, '\n');
    assert text[..n][..n - 1] == text[..eol][..n - 1];
  }

  /** The pieces together are the file. */
  lemma {:induction false} ChunksAreAll(text: string, limit: nat)
    requires limit >= 1
    ensures Together(Chunks(text, limit)) == text
    decreases |text|
  {
    if text != [] {
      var n := ChunkLength(text, limit);
      ChunksAreAll(text[n..], limit);
      assert text == text[..n] + text[n..];
    }
  }

  function Together(pieces: seq<string>): string
  {
    if pieces == [] then "" else pieces[0] + Together(pieces[1..])
  }

  /** The last piece ends where the file ends. */
  lemma {:induction false} LastChunk(text: string, limit: nat)
    requires limit >= 1 && text != []
    ensures Chunks(text, limit) != []
    ensures IsSuffix(Chunks(text, limit)[|Chunks(text, limit)| - 1], text)
    decreases |text|
  {
    var n := ChunkLength(text, limit);
    var rest := Chunks(text[n..], limit);
    assert Chunks(text, limit) == [text[..n]] + rest;
    if n < |text| {
      LastChunk(text[n..], limit);
      var last := rest[|rest| - 1];
      assert Chunks(text, limit)[|rest|] == last;
      assert text[|text| - |last|..] == text[n..][|text| - n - |last|..];
    }
  }

  // ---- Files written line by line ----

  /** What a program writes for these lines, each followed by a line break. */
  function Join(lines: seq<string>): string
  {
    if lines == [] then "" else lines[0] + "\n" + Join(lines[1..])
  }

  lemma {:induction false} JoinSplit(a: seq<string>, b: seq<string>)
    ensures Join(a + b) == Join(a) + Join(b)
  {
    if a == [] {
      assert a + b == b;
    } else {
      JoinSplit(a[1..], b);
      assert (a + b)[1..] == a[1..] + b && (a + b)[0] == a[0];
      assert (a[0] + "\n") + (Join(a[1..]) + Join(b)) == ((a[0] + "\n") + Join(a[1..])) + Join(b);
    }
  }

  /** A line that fits the buffer; it may itself end with a line break. */
  predicate IsText(line: string, limit: nat)
  {
    |line| <= limit && (line == [] || '\n' !in line[..|line| - 1])
  }

  /** How such a line is read back: its line break comes alone if it no longer fits, or is a second one. */
  function Pieces(line: string, limit: nat): seq<string>
  {
    if line != [] && IsWhole(line, limit) then [line, "\n"] else [line + "\n"]
  }

  function AllPieces(lines: seq<string>, limit: nat): seq<string>
  {
    if lines == [] then [] else Pieces(lines[0], limit) + AllPieces(lines[1..], limit)
  }

  lemma {:induction false} AllPiecesSplit(a: seq<string>, b: seq<string>, limit: nat)
    ensures AllPieces(a + b, limit) == AllPieces(a, limit) + AllPieces(b, limit)
  {
    if a == [] {
      assert a + b == b;
    } else {
      AllPiecesSplit(a[1..], b, limit);
      assert (a + b)[1..] == a[1..] + b && (a + b)[0] == a[0];
    }
  }

  lemma FirstChunk(piece: string, rest: string, limit: nat)
    requires limit >= 1 && IsPiece(piece, limit) && IsWhole(piece, limit)
    ensures Chunks(piece + rest, limit) == [piece] + Chunks(rest, limit)
  {
    var n, text := |piece|, piece + rest;
    assert text[..n - 1] == piece[..n - 1] && text[n - 1] == piece[n - 1];
    if piece[n - 1] == '\n' {
      IndexIs(text, '\n', n - 1);
    } else {
      assert forall k :: 0 <= k < n ==> text[k] == piece[k] && (k < n - 1 ==> piece[k] == piece[..n - 1][k]);
      assert IndexOf(text, '\n') >= n;
    }
    assert text[..n] == piece && text[n..] == rest;
  }

  lemma BreakAdded(line: string, limit: nat)
    requires limit >= 1 && IsText(line, limit) && (line != [] ==> !IsWhole(line, limit))
    ensures IsPiece(line + "\n", limit) && IsWhole(line + "\n", limit)
  {
    var piece := line + "\n";
    assert piece[..|piece| - 1] == line;
    if line != [] {
      assert line == line[..|line| - 1] + [line[|line| - 1]];
    }
  }

  lemma Regroup<T>(a: seq<T>, b: seq<T>, c: seq<T>)
    ensures (a + b) + c == a + (b + c)
  {
  }

  /** A line whose break no longer fits is read in two pieces. */
  lemma TwoPieces(line: string, rest: string, limit: nat)
    requires limit >= 1 && IsPiece(line, limit) && IsWhole(line, limit)
    ensures Chunks(line + "\n" + rest, limit) == [line, "\n"] + Chunks(rest, limit)
  {
    Regroup(line, "\n", rest);
    FirstChunk(line, "\n" + rest, limit);
    FirstChunk("\n", rest, limit);
    Regroup([line], ["\n"], Chunks(rest, limit));
  }

  lemma PiecesOfLine(line: string, rest: string, limit: nat)
    requires limit >= 1 && IsText(line, limit)
    ensures Chunks(line + "\n" + rest, limit) == Pieces(line, limit) + Chunks(rest, limit)
  {
    if line != [] && IsWhole(line, limit) {
      TwoPieces(line, rest, limit);
    } else {
      BreakAdded(line, limit);
      FirstChunk(line + "\n", rest, limit);
    }
  }

  /** Lines that fit the buffer are read back in order. */
  lemma {:induction false} ChunksOfJoin(lines: seq<string>, limit: nat)
    requires limit >= 1 && forall i :: 0 <= i < |lines| ==> IsText(lines[i], limit)
    ensures Chunks(Join(lines), limit) == AllPieces(lines, limit)
  {
    if lines != [] {
      ChunksOfJoin(lines[1..], limit);
      PiecesOfLine(lines[0], Join(lines[1..]), limit);
    }
  }

  /** Lines one behind the other, each with its own line break. */
  function Concat(lines: seq<string>): string
  {
    if lines == [] then "" else Concat(lines[..|lines| - 1]) + lines[|lines| - 1]
  }

  lemma ConcatAppend(lines: seq<string>, line: string)
    ensures Concat(lines + [line]) == Concat(lines) + line
  {
    assert (lines + [line])[..|lines + [line]| - 1] == lines;
  }

  predicate IsFileLine(line: string, limit: nat)
  {
    IsPiece(line, limit) && line[|line| - 1] == '\n'
  }

  lemma {:induction false} ChunksOfConcat(lines: seq<string>, rest: string, limit: nat)
    requires limit >= 1 && forall i :: 0 <= i < |lines| ==> IsFileLine(lines[i], limit)
    ensures Chunks(Concat(lines) + rest, limit) == lines + Chunks(rest, limit)
    decreases |lines|
  {
    if lines == [] {
      assert Concat(lines) + rest == rest;
    } else {
      var n := |lines| - 1;
      ChunksOfConcat(lines[..n], lines[n] + rest, limit);
      FirstChunk(lines[n], rest, limit);
      Regroup(Concat(lines[..n]), lines[n], rest);
      Regroup(lines[..n], [lines[n]], Chunks(rest, limit));
      assert lines == lines[..n] + [lines[n]];
    }
  }

  /** Whole lines that fit the buffer are read back one by one. */
  lemma LinesReadBack(lines: seq<string>, limit: nat)
    requires limit >= 1 && forall i :: 0 <= i < |lines| ==> IsFileLine(lines[i], limit)
    ensures Chunks(Concat(lines), limit) == lines
  {
    ChunksOfConcat(lines, "", limit);
    assert Concat(lines) + "" == Concat(lines);
    assert Chunks("", limit) == [];
  }
}
