/**
  The per-line logic of the fault-line import of the station-generation tool.
  A fault file is a list of text lines: a line starting with `>` ends the
  current block, a line of exactly two numbers `lon lat` adds a point to it,
  and everything else is skipped. Every block is shown with the same name.
 */
module FaultLines {
  import opened Geo

  /** The label every imported block carries. */
  const FaultName: string := "幕府山焦山断裂带"

  /** One drawn fault line: its label and its points as (lat, lon). */
  datatype FaultLine = FaultLine(name: string, coordinates: seq<Coord>)

  /** Python's `str.isspace` on one character: the characters `strip` and `split` treat as blanks. */
  predicate IsSpace(c: char)
  {
    if c <= ' ' then '\t' <= c <= '\r' || '\U{1C}' <= c
    else if c < '\U{2000}' then c == '\U{85}' || c == '\U{A0}' || c == '\U{1680}'
    else c <= '\U{200A}' || c == '\U{2028}' || c == '\U{2029}' || c == '\U{202F}' || c == '\U{205F}' || c == '\U{3000}'
  }

  predicate AllSpace(s: string)
  {
    forall k :: 0 <= k < |s| ==> IsSpace(s[k])
  }

  predicate NoSpace(s: string)
  {
    forall k :: 0 <= k < |s| ==> !IsSpace(s[k])
  }

  /** `s` without its leading whitespace. */
  function TrimStart(s: string): string
    decreases |s|
  {
    if s != [] && IsSpace(s[0]) then TrimStart(s[1..]) else s
  }

  /** `s` without its trailing whitespace. */
  function TrimEnd(s: string): string
    decreases |s|
  {
    if s != [] && IsSpace(s[|s| - 1]) then TrimEnd(s[..|s| - 1]) else s
  }

  /** Python's `str.strip()` with no argument. */
  function Strip(s: string): string
  {
    TrimEnd(TrimStart(s))
  }

  /** Trimming the front drops a whitespace prefix and stops at a non-blank character. */
  lemma {:induction false} TrimStartSpec(s: string)
    ensures var r := TrimStart(s);
            && |r| <= |s| && r == s[|s| - |r|..]
            && AllSpace(s[..|s| - |r|])
            && (r != [] ==> !IsSpace(r[0]))
    decreases |s|
  {
    if s != [] && IsSpace(s[0]) {
      TrimStartSpec(s[1..]);
      var r := TrimStart(s);
      assert s[..|s| - |r|] == [s[0]] + s[1..][..|s| - 1 - |r|];
    }
  }

  /** Trimming the back drops a whitespace suffix and stops at a non-blank character. */
  lemma {:induction false} TrimEndSpec(s: string)
    ensures var r := TrimEnd(s);
            && |r| <= |s| && r == s[..|r|]
            && AllSpace(s[|r|..])
            && (r != [] ==> !IsSpace(r[|r| - 1]))
    decreases |s|
  {
    if s != [] && IsSpace(s[|s| - 1]) {
      TrimEndSpec(s[..|s| - 1]);
      var r := TrimEnd(s);
      assert s[|r|..] == s[..|s| - 1][|r|..] + [s[|s| - 1]];
    }
  }

  /**
    The stripped text is the slice of `s` left once the whitespace at both
    ends is cut away; it is empty exactly when `s` is all whitespace.
   */
  lemma StripSpec(s: string)
    ensures var r := Strip(s);
            && (exists a, b :: 0 <= a <= b <= |s| && r == s[a..b] && AllSpace(s[..a]) && AllSpace(s[b..]))
            && (r != [] ==> !IsSpace(r[0]) && !IsSpace(r[|r| - 1]))
            && (r == [] <==> AllSpace(s))
  {
    var t := TrimStart(s);
    var r := TrimEnd(t);
    TrimStartSpec(s);
    TrimEndSpec(t);
    var a := |s| - |t|;
    assert r == s[a..a + |r|];
    assert s[a + |r|..] == t[|r|..];
    assert r == [] ==> s == s[..a] + s[a..];
  }

  /** The length of the word at the start of `s`. */
  function WordLength(s: string): (n: nat)
    requires s != [] && !IsSpace(s[0])
    ensures 0 < n <= |s| && NoSpace(s[..n]) && (n < |s| ==> IsSpace(s[n]))
    decreases |s|
  {
    if |s| == 1 || IsSpace(s[1]) then 1 else 1 + WordLength(s[1..])
  }

  /** Python's `str.split()` with no argument: the maximal runs of non-whitespace, in order. */
  function Split(s: string): (r: seq<string>)
    ensures forall t :: t in r ==> t != [] && NoSpace(t)
    decreases |s|
  {
    if s == [] then []
    else if IsSpace(s[0]) then Split(s[1..])
    else
      var n := WordLength(s);
      [s[..n]] + Split(s[n..])
  }

  /** The non-whitespace characters of `s`, in order. */
  function NonSpace(s: string): string
    decreases |s|
  {
    if s == [] then [] else (if IsSpace(s[0]) then [] else [s[0]]) + NonSpace(s[1..])
  }

  function Concat(ts: seq<string>): string
    decreases |ts|
  {
    if ts == [] then [] else ts[0] + Concat(ts[1..])
  }

  /** Proof helper for NonSpaceAppend: NonSpace keeps or drops the first character on its own. */
  lemma NonSpaceCons(c: char, s: string)
    ensures NonSpace([c] + s) == (if IsSpace(c) then [] else [c]) + NonSpace(s)
  {
    assert ([c] + s)[0] == c && ([c] + s)[1..] == s;
  }

  lemma {:induction false} NonSpaceAppend(a: string, b: string)
    ensures NonSpace(a + b) == NonSpace(a) + NonSpace(b)
    decreases |a|
  {
    if a == [] {
      assert a + b == b;
    } else {
      var head := if IsSpace(a[0]) then [] else [a[0]];
      NonSpaceAppend(a[1..], b);
      assert a == [a[0]] + a[1..] && a + b == [a[0]] + (a[1..] + b);
      NonSpaceCons(a[0], a[1..]);
      NonSpaceCons(a[0], a[1..] + b);
      assert head + (NonSpace(a[1..]) + NonSpace(b)) == (head + NonSpace(a[1..])) + NonSpace(b);
    }
  }

  lemma {:induction false} NonSpaceOfWord(w: string)
    requires NoSpace(w)
    ensures NonSpace(w) == w
    decreases |w|
  {
    if w != [] {
      NonSpaceOfWord(w[1..]);
    }
  }

  /** Splitting loses only whitespace: the words, put back together, are the non-blank characters. */
  lemma {:induction false} SplitKeepsText(s: string)
    ensures Concat(Split(s)) == NonSpace(s)
    decreases |s|
  {
    if s != [] {
      if IsSpace(s[0]) {
        SplitKeepsText(s[1..]);
      } else {
        var n := WordLength(s);
        SplitKeepsText(s[n..]);
        NonSpaceOfWord(s[..n]);
        NonSpaceAppend(s[..n], s[n..]);
        assert s == s[..n] + s[n..];
        assert ([s[..n]] + Split(s[n..]))[1..] == Split(s[n..]);
      }
    }
  }

  /** `split()` finds no word exactly in an all-whitespace string. */
  lemma {:induction false} SplitEmptyIff(s: string)
    ensures Split(s) == [] <==> AllSpace(s)
    decreases |s|
  {
    if s != [] && IsSpace(s[0]) {
      SplitEmptyIff(s[1..]);
      assert AllSpace(s) <==> AllSpace(s[1..]) by {
        if AllSpace(s[1..]) {
          forall k | 0 <= k < |s| ensures IsSpace(s[k]) {
            if k > 0 { assert s[k] == s[1..][k - 1]; }
          }
        }
      }
    }
  }

  /** Leading whitespace does not change the words. */
  lemma {:induction false} SplitSkipsSpace(s: string)
    ensures Split(s) == Split(TrimStart(s))
    decreases |s|
  {
    if s != [] && IsSpace(s[0]) {
      SplitSkipsSpace(s[1..]);
    }
  }

  /** The length of the leading word is the position of the first whitespace character. */
  lemma WordLengthAt(s: string, i: nat)
    requires 0 < i < |s| && NoSpace(s[..i]) && IsSpace(s[i])
    ensures WordLength(s) == i
  {
  }

  /** Trimming the front stops exactly at the first non-whitespace character. */
  lemma TrimStartAt(s: string, j: nat)
    requires j < |s| && AllSpace(s[..j]) && !IsSpace(s[j])
    ensures TrimStart(s) == s[j..]
  {
    TrimStartSpec(s);
  }

  /** A leading word ending at position `i` is the first word. */
  lemma SplitFirstWordAt(t: string, i: nat)
    requires 0 < i < |t| && NoSpace(t[..i]) && IsSpace(t[i])
    ensures Split(t) == [t[..i]] + Split(t[i..])
  {
    assert t[0] == t[..i][0];
    WordLengthAt(t, i);
  }

  /** A leading run of whitespace of length `g` does not change the words. */
  lemma SplitSkipsGap(u: string, g: nat)
    requires g < |u| && AllSpace(u[..g]) && !IsSpace(u[g])
    ensures Split(u) == Split(u[g..])
  {
    TrimStartAt(u, g);
    SplitSkipsSpace(u);
  }

  /** A word that runs to the end of the string is its only word. */
  lemma SplitWholeWord(w: string)
    requires w != [] && NoSpace(w)
    ensures Split(w) == [w]
  {
    var n := WordLength(w);
    assert n == |w|;
    assert w[..n] == w && w[n..] == [];
  }

  /**
    `split()` takes maximal runs of non-whitespace, in order: after any
    leading whitespace `g`, a word `w` that is followed by the end of the
    string or by whitespace is the first word, and the rest `r` gives the
    remaining words. With `SplitEmptyIff` this determines `split()` on
    every string.
   */
  lemma SplitLeadingWord(g: string, w: string, r: string)
    requires AllSpace(g) && w != [] && NoSpace(w) && (r == [] || IsSpace(r[0]))
    ensures Split(g + w + r) == [w] + Split(r)
  {
    var s := g + w + r;
    assert s[..|g|] == g && s[|g|..] == w + r;
    assert s[|g|] == w[0];
    SplitSkipsGap(s, |g|);
    var t := w + r;
    if r == [] {
      assert t == w;
      SplitWholeWord(w);
    } else {
      assert t[..|w|] == w && t[|w|..] == r && t[|w|] == r[0];
      SplitFirstWordAt(t, |w|);
    }
  }

  /** A word directly followed by whitespace is the first word. */
  lemma SplitWordThenGap(w: string, r: string)
    requires w != [] && NoSpace(w) && r != [] && IsSpace(r[0])
    ensures Split(w + r) == [w] + Split(r)
  {
    var t := w + r;
    assert t[..|w|] == w && t[|w|..] == r && t[|w|] == r[0];
    SplitFirstWordAt(t, |w|);
  }

  /** A line of two words separated by whitespace, as the fault file holds them, splits into those two words. */
  lemma SplitTwoWords(x: string, gap: string, y: string, trail: string)
    requires x != [] && NoSpace(x) && y != [] && NoSpace(y)
    requires gap != [] && AllSpace(gap) && AllSpace(trail)
    ensures Split(x + (gap + y + trail)) == [x, y]
  {
    var r := gap + y + trail;
    SplitLeadingWord(gap, y, trail);
    SplitEmptyIff(trail);
    assert Split(r) == [y];
    assert r[0] == gap[0];
    SplitWordThenGap(x, r);
  }

  /** How the import loop treats one line of the file. */
  datatype LineKind = Blank | Separator | Point(c: Coord) | Skipped

  /**
    A stripped empty line is blank; one starting with `>` separates blocks;
    one with exactly two words that both parse gives the point
    (lat, lon) = (second word, first word); anything else is skipped.
   */
  function Classify(line: string, parseFloat: string -> Option<real>): LineKind
  {
    var t := Strip(line);
    if t == [] then Blank
    else if t[0] == '>' then Separator
    else
      var parts := Split(t);
      if |parts| == 2 && parseFloat(parts[0]).Some? && parseFloat(parts[1]).Some? then
        Point(Coord(parseFloat(parts[1]).value, parseFloat(parts[0]).value))
      else Skipped
  }

  /**
    What each kind of line is, stated on the raw line: blank exactly when
    all of it is whitespace; a point exactly when the stripped line does not
    start with `>` and splits into two words whose second parses to the
    latitude and whose first parses to the longitude.
   */
  lemma ClassifyCases(line: string, parseFloat: string -> Option<real>, c: Coord)
    ensures Classify(line, parseFloat) == Blank <==> AllSpace(line)
    ensures Classify(line, parseFloat) == Separator <==> Strip(line) != [] && Strip(line)[0] == '>'
    ensures Classify(line, parseFloat) == Point(c) <==>
              var t := Strip(line);
              && t != [] && t[0] != '>'
              && |Split(t)| == 2
              && parseFloat(Split(t)[1]) == Some(c.lat)
              && parseFloat(Split(t)[0]) == Some(c.lon)
  {
    StripSpec(line);
  }

  /** The loop state: the blocks emitted so far and the points of the open block. */
  datatype ParseState = ParseState(blocks: seq<FaultLine>, pending: seq<Coord>)

  /** One turn of the loop over the file's lines. */
  function Step(st: ParseState, line: string, parseFloat: string -> Option<real>): ParseState
  {
    match Classify(line, parseFloat)
    case Separator =>
      if st.pending != [] then ParseState(st.blocks + [FaultLine(FaultName, st.pending)], [])
      else st
    case Point(c) => ParseState(st.blocks, st.pending + [c])
    case _ => st
  }

  /** The loop run over `lines`, starting from `st`. */
  function Run(st: ParseState, lines: seq<string>, parseFloat: string -> Option<real>): ParseState
    decreases |lines|
  {
    if lines == [] then st
    else Step(Run(st, lines[..|lines| - 1], parseFloat), lines[|lines| - 1], parseFloat)
  }

  /** The block still open after the last line is emitted too, when it has points. */
  function Flush(st: ParseState): seq<FaultLine>
  {
    if st.pending != [] then st.blocks + [FaultLine(FaultName, st.pending)] else st.blocks
  }

  /** The fault lines read from a file. */
  function FaultBlocks(lines: seq<string>, parseFloat: string -> Option<real>): seq<FaultLine>
  {
    Flush(Run(ParseState([], []), lines, parseFloat))
  }

  /** The points of the accepted lines, in file order. */
  function AcceptedPoints(lines: seq<string>, parseFloat: string -> Option<real>): seq<Coord>
    decreases |lines|
  {
    if lines == [] then []
    else
      AcceptedPoints(lines[..|lines| - 1], parseFloat) + LinePoints(lines[|lines| - 1], parseFloat)
  }

  /** The number of separator lines. */
  function Separators(lines: seq<string>, parseFloat: string -> Option<real>): nat
    decreases |lines|
  {
    if lines == [] then 0
    else
      Separators(lines[..|lines| - 1], parseFloat)
        + (if Classify(lines[|lines| - 1], parseFloat) == Separator then 1 else 0)
  }

  /** All points of a list of blocks, block after block. */
  function Flatten(blocks: seq<FaultLine>): seq<Coord>
    decreases |blocks|
  {
    if blocks == [] then [] else Flatten(blocks[..|blocks| - 1]) + blocks[|blocks| - 1].coordinates
  }

  lemma {:induction false} RunAppend(st: ParseState, a: seq<string>, b: seq<string>, parseFloat: string -> Option<real>)
    ensures Run(st, a + b, parseFloat) == Run(Run(st, a, parseFloat), b, parseFloat)
    decreases |b|
  {
    if b == [] {
      assert a + b == a;
    } else {
      var n := |b| - 1;
      RunAppend(st, a, b[..n], parseFloat);
      assert (a + b)[..|a + b| - 1] == a + b[..n];
    }
  }

  /** A blank line, or one that is skipped, can be deleted from the file without changing the result. */
  lemma SkippedLineIsInvisible(a: seq<string>, line: string, b: seq<string>, parseFloat: string -> Option<real>)
    requires Classify(line, parseFloat) == Blank || Classify(line, parseFloat) == Skipped
    ensures FaultBlocks(a + [line] + b, parseFloat) == FaultBlocks(a + b, parseFloat)
  {
    var init := ParseState([], []);
    RunAppend(init, a + [line], b, parseFloat);
    RunAppend(init, a, [line], parseFloat);
    RunAppend(init, a, b, parseFloat);
    assert [line][..0] == [];
  }

  /** No empty block is ever emitted. */
  lemma {:induction false} RunBlocksNonEmpty(st: ParseState, lines: seq<string>, parseFloat: string -> Option<real>)
    requires forall b :: b in st.blocks ==> b.coordinates != []
    ensures forall b :: b in Run(st, lines, parseFloat).blocks ==> b.coordinates != []
    decreases |lines|
  {
    if lines != [] {
      RunBlocksNonEmpty(st, lines[..|lines| - 1], parseFloat);
    }
  }

  /** Each emitted block has points, so a `>` line with no points pending emits nothing. */
  lemma BlocksNonEmpty(lines: seq<string>, parseFloat: string -> Option<real>)
    ensures forall b :: b in FaultBlocks(lines, parseFloat) ==> b.coordinates != [] && b.name == FaultName
  {
    RunBlocksNonEmpty(ParseState([], []), lines, parseFloat);
    RunNames(ParseState([], []), lines, parseFloat);
  }

  lemma {:induction false} RunNames(st: ParseState, lines: seq<string>, parseFloat: string -> Option<real>)
    requires forall b :: b in st.blocks ==> b.name == FaultName
    ensures forall b :: b in Run(st, lines, parseFloat).blocks ==> b.name == FaultName
    decreases |lines|
  {
    if lines != [] {
      RunNames(st, lines[..|lines| - 1], parseFloat);
    }
  }

  /** The points the accepted line `line` contributes. */
  function LinePoints(line: string, parseFloat: string -> Option<real>): seq<Coord>
  {
    match Classify(line, parseFloat)
    case Point(c) => [c]
    case _ => []
  }

  lemma StepKeepsPoints(st: ParseState, line: string, parseFloat: string -> Option<real>)
    ensures Flatten(Step(st, line, parseFloat).blocks) + Step(st, line, parseFloat).pending
            == Flatten(st.blocks) + st.pending + LinePoints(line, parseFloat)
  {
    var kind := Classify(line, parseFloat);
    if kind == Separator && st.pending != [] {
      var blocks := st.blocks + [FaultLine(FaultName, st.pending)];
      assert blocks[..|blocks| - 1] == st.blocks;
    } else if kind.Point? {
      assert Flatten(st.blocks) + (st.pending + [kind.c]) == Flatten(st.blocks) + st.pending + [kind.c];
    }
  }

  lemma {:induction false} RunKeepsPoints(st: ParseState, lines: seq<string>, parseFloat: string -> Option<real>)
    ensures Flatten(Run(st, lines, parseFloat).blocks) + Run(st, lines, parseFloat).pending
            == Flatten(st.blocks) + st.pending + AcceptedPoints(lines, parseFloat)
    decreases |lines|
  {
    if lines != [] {
      var n := |lines| - 1;
      RunKeepsPoints(st, lines[..n], parseFloat);
      var prev := Run(st, lines[..n], parseFloat);
      StepKeepsPoints(prev, lines[n], parseFloat);
      assert AcceptedPoints(lines, parseFloat) == AcceptedPoints(lines[..n], parseFloat) + LinePoints(lines[n], parseFloat);
    }
  }

  /** Reading the blocks back in order gives exactly the accepted lines' points. */
  lemma FlattenIsAccepted(lines: seq<string>, parseFloat: string -> Option<real>)
    ensures Flatten(FaultBlocks(lines, parseFloat)) == AcceptedPoints(lines, parseFloat)
  {
    var init := ParseState([], []);
    RunKeepsPoints(init, lines, parseFloat);
    var r := Run(init, lines, parseFloat);
    if r.pending != [] {
      var blocks := r.blocks + [FaultLine(FaultName, r.pending)];
      assert blocks[..|blocks| - 1] == r.blocks;
    }
  }

  lemma {:induction false} RunBlockCount(st: ParseState, lines: seq<string>, parseFloat: string -> Option<real>)
    ensures |Run(st, lines, parseFloat).blocks| <= |st.blocks| + Separators(lines, parseFloat)
    decreases |lines|
  {
    if lines != [] {
      RunBlockCount(st, lines[..|lines| - 1], parseFloat);
    }
  }

  /** Running from stored blocks and no open block only appends to those blocks. */
  lemma {:induction false} RunFromBlocks(bs: seq<FaultLine>, lines: seq<string>, parseFloat: string -> Option<real>)
    ensures var e := Run(ParseState([], []), lines, parseFloat);
            Run(ParseState(bs, []), lines, parseFloat) == ParseState(bs + e.blocks, e.pending)
    decreases |lines|
  {
    if lines == [] {
      assert bs + [] == bs;
    } else {
      var n := |lines| - 1;
      RunFromBlocks(bs, lines[..n], parseFloat);
      var e := Run(ParseState([], []), lines[..n], parseFloat);
      if Classify(lines[n], parseFloat) == Separator && e.pending != [] {
        assert bs + e.blocks + [FaultLine(FaultName, e.pending)] == bs + (e.blocks + [FaultLine(FaultName, e.pending)]);
      }
    }
  }

  /** A separator line closes the open block: what precedes it and what follows it are read independently. */
  lemma SeparatorSplits(a: seq<string>, s: string, b: seq<string>, parseFloat: string -> Option<real>)
    requires Classify(s, parseFloat) == Separator
    ensures FaultBlocks(a + [s] + b, parseFloat) == FaultBlocks(a, parseFloat) + FaultBlocks(b, parseFloat)
  {
    var init := ParseState([], []);
    RunAppend(init, a + [s], b, parseFloat);
    RunAppend(init, a, [s], parseFloat);
    assert [s][..0] == [];
    var closed := FaultBlocks(a, parseFloat);
    assert Run(init, a + [s], parseFloat) == ParseState(closed, []);
    RunFromBlocks(closed, b, parseFloat);
    var e := Run(init, b, parseFloat);
    if e.pending != [] {
      assert closed + e.blocks + [FaultLine(FaultName, e.pending)] == closed + (e.blocks + [FaultLine(FaultName, e.pending)]);
    }
  }

  /** Without separator lines, every accepted point goes to the one open block. */
  lemma {:induction false} NoSeparatorRun(lines: seq<string>, parseFloat: string -> Option<real>)
    requires forall k :: 0 <= k < |lines| ==> Classify(lines[k], parseFloat) != Separator
    ensures Run(ParseState([], []), lines, parseFloat) == ParseState([], AcceptedPoints(lines, parseFloat))
    decreases |lines|
  {
    if lines != [] {
      var n := |lines| - 1;
      forall k | 0 <= k < n ensures Classify(lines[..n][k], parseFloat) != Separator {
        assert lines[..n][k] == lines[k];
      }
      NoSeparatorRun(lines[..n], parseFloat);
    }
  }

  /** A file without separator lines gives no block, or one block holding all accepted points. */
  lemma NoSeparatorBlocks(lines: seq<string>, parseFloat: string -> Option<real>)
    requires forall k :: 0 <= k < |lines| ==> Classify(lines[k], parseFloat) != Separator
    ensures var pts := AcceptedPoints(lines, parseFloat);
            FaultBlocks(lines, parseFloat) == if pts == [] then [] else [FaultLine(FaultName, pts)]
  {
    NoSeparatorRun(lines, parseFloat);
  }

  /** There are at most one block per separator line, plus the final one. */
  lemma BlockCount(lines: seq<string>, parseFloat: string -> Option<real>)
    ensures |FaultBlocks(lines, parseFloat)| <= Separators(lines, parseFloat) + 1
  {
    RunBlockCount(ParseState([], []), lines, parseFloat);
  }
}
