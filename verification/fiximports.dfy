/**
 The `fiximports` preprocessor, which GHC runs as `ghc -F -pgmF` on every
 Haskell source file. The program copies the file's lines to its output. Before
 each line whose `strip()` is `import qualified Prelude`, it writes two more
 imports and a `LINE` pragma. The pragma makes GHC report positions in the
 original file again. The output starts with a `LINE 1` pragma for the same reason.

 Command-line handling and file I/O are left out. The input is the file's
 sequence of decoded lines the file iterator yields, each still carrying its
 `\n` if it has one. The result is the text written to the output file.
 */
module FixImports {
  import opened PyStr
  import opened Decimal
  import opened Seqs

  /** The line, after `strip()`, in front of which the imports are inserted. */
  const Marker: string := "import qualified Prelude"

  /** The inserted import block, starting with a blank line. */
  const Imports: string := "\nimport qualified Data.Bits\nimport qualified Data.Char\n"

  predicate IsMarker(line: string) {
    Strip(line) == Marker
  }

  const PragmaOpen: string := "{-# LINE "
  const PragmaSep: string := " \""
  const PragmaClose: string := "\" #-}\n"

  /** The pragma `{-# LINE n "filename" #-}` and its newline. The filename is not escaped. */
  function LinePragma(n: nat, filename: string): string {
    PragmaOpen + NatToDecimal(n) + PragmaSep + filename + PragmaClose
  }

  /** What the program writes before it reads any line. */
  function Header(filename: string): string {
    LinePragma(1, filename)
  }

  /** The text the loop writes in front of input line number `n` (counting from 1). */
  function Insertion(filename: string, line: string, n: nat): string {
    if IsMarker(line) then Imports + LinePragma(n, filename) else ""
  }

  /** What the loop writes for `lines`, the file's first `|lines|` lines. */
  function Emitted(filename: string, lines: seq<string>): string
    decreases |lines|
  {
    if lines == [] then ""
    else
      var k := |lines| - 1;
      Emitted(filename, lines[..k]) + Insertion(filename, lines[k], k + 1) + lines[k]
  }

  /** The whole output file for an input file named `filename` that consists of `lines`. */
  function Rewrite(filename: string, lines: seq<string>): string {
    Header(filename) + Emitted(filename, lines)
  }

  /** Reading one more line extends the output by that line's insertion and the line. */
  lemma RewriteStep(filename: string, lines: seq<string>, k: nat)
    requires k < |lines|
    ensures Rewrite(filename, lines[..k + 1])
            == Rewrite(filename, lines[..k]) + Insertion(filename, lines[k], k + 1) + lines[k]
  {
    var p := lines[..k + 1];
    TakeTake(lines, k);
    var e, i := Emitted(filename, lines[..k]), Insertion(filename, lines[k], k + 1);
    assert Emitted(filename, p) == e + i + lines[k];
    Assoc(Header(filename), e + i, lines[k]);
    Assoc(Header(filename), e, i);
  }

  /** The program's loop, one output write at a time. */
  method RunFixImports(filename: string, lines: seq<string>) returns (out: string)
    ensures out == Rewrite(filename, lines)
  {
    out := Header(filename);
    TakeNone(lines);
    AppendEmpty(Header(filename));
    var n := 1;
    while n <= |lines|
      invariant 1 <= n <= |lines| + 1
      invariant out == Rewrite(filename, lines[..n - 1])
    {
      var line := lines[n - 1];
      ghost var before := out;
      if Strip(line) == Marker {
        out := out + Imports;
        out := out + LinePragma(n, filename);
      }
      assert out == before + Insertion(filename, line, n);
      out := out + line;
      RewriteStep(filename, lines, n - 1);
      n := n + 1;
    }
    TakeAll(lines);
  }

  /** The input lines joined back into the file's text. */
  function Concat(lines: seq<string>): string
    decreases |lines|
  {
    if lines == [] then "" else Concat(lines[..|lines| - 1]) + lines[|lines| - 1]
  }

  /** The 1-based numbers of the marker lines, in increasing order. */
  function MarkerLines(lines: seq<string>): seq<nat>
    decreases |lines|
  {
    if lines == [] then []
    else
      var k := |lines| - 1;
      MarkerLines(lines[..k]) + (if IsMarker(lines[k]) then [k + 1] else [])
  }

  /** Every listed number is the number of a line of the file. */
  lemma {:induction false} MarkerLinesBounded(lines: seq<string>)
    ensures forall n :: n in MarkerLines(lines) ==> 1 <= n <= |lines|
    decreases |lines|
  {
    if lines != [] {
      var k := |lines| - 1;
      MarkerLinesBounded(lines[..k]);
      var t: seq<nat> := if IsMarker(lines[k]) then [k + 1] else [];
      assert MarkerLines(lines) == MarkerLines(lines[..k]) + t;
    }
  }

  /** Line `i + 1` is listed exactly when it is a marker line. */
  lemma {:induction false} MarkerLinesMembers(lines: seq<string>)
    ensures forall i :: 0 <= i < |lines| ==> (i + 1 in MarkerLines(lines) <==> IsMarker(lines[i]))
    decreases |lines|
  {
    if lines != [] {
      var k := |lines| - 1;
      var p := lines[..k];
      MarkerLinesMembers(p);
      MarkerLinesBounded(p);
      var ns := MarkerLines(p);
      var t: seq<nat> := if IsMarker(lines[k]) then [k + 1] else [];
      assert MarkerLines(lines) == ns + t;
      forall i | 0 <= i < k
        ensures i + 1 in ns + t <==> IsMarker(lines[i])
      {
        assert p[i] == lines[i];
      }
      assert k + 1 !in ns;
    }
  }

  /** The marker line numbers are listed in increasing order. */
  lemma {:induction false} MarkerLinesIncreasing(lines: seq<string>)
    ensures forall i, j :: 0 <= i < j < |MarkerLines(lines)| ==> MarkerLines(lines)[i] < MarkerLines(lines)[j]
    decreases |lines|
  {
    if lines != [] {
      var k := |lines| - 1;
      var p := lines[..k];
      MarkerLinesIncreasing(p);
      MarkerLinesBounded(p);
      var ns := MarkerLines(p);
      var t: seq<nat> := if IsMarker(lines[k]) then [k + 1] else [];
      assert MarkerLines(lines) == ns + t;
      forall i, j | 0 <= i < j < |ns + t|
        ensures (ns + t)[i] < (ns + t)[j]
      {
        if j >= |ns| {
          assert t == [k + 1] && (ns + t)[j] == k + 1;
          assert (ns + t)[i] == ns[i] && ns[i] in ns;
          assert ns[i] <= k;
        } else {
          assert (ns + t)[i] == ns[i] && (ns + t)[j] == ns[j];
          assert ns[i] < ns[j];
        }
      }
    }
  }

  /** A line number and filename, as a `LINE` pragma carries them. */
  datatype Position = Position(line: nat, file: string)

  datatype Option<T> = None | Some(value: T)

  /** Reads a pragma as written by `LinePragma`. The filename is everything between
      `" "` after the number and the closing `" #-}` with its newline. */
  function ParsePragma(s: string): Option<Position> {
    if |s| < |PragmaOpen| + |PragmaClose| || s[..|PragmaOpen|] != PragmaOpen
       || s[|s| - |PragmaClose|..] != PragmaClose
    then None
    else ParseNumbered(s[|PragmaOpen|..|s| - |PragmaClose|])
  }

  /** Reads the inside of a pragma: a line number as `%d` prints it, `" "`, then the filename. */
  function ParseNumbered(mid: string): Option<Position> {
    var k := DigitPrefixLength(mid);
    if k + |PragmaSep| <= |mid| && Canonical(mid[..k]) && mid[k..k + |PragmaSep|] == PragmaSep then
      Some(Position(DecimalValue(mid[..k]), mid[k + |PragmaSep|..]))
    else
      None
  }
}
