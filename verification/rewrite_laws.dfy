/**
 What the output of `fiximports` is, stated about `Rewrite` for every input:
 where the insertions go, what is copied, how long the output is, and how the
 `LINE` pragmas and the marker test behave.
 */
module RewriteLaws {
  import opened PyStr
  import opened Decimal
  import opened FixImports
  import opened Seqs

  // ----- the marker test -----

  /** A line that is the marker surrounded by any whitespace, the newline included, is a marker line. */
  lemma MarkerPadded(a: string, b: string)
    requires AllSpace(a) && AllSpace(b)
    ensures IsMarker(a + Marker + b)
  {
    StripUnique(a, Marker, b);
  }

  /** Conversely, a marker line is the marker with only whitespace around it. */
  lemma MarkerLineShape(line: string)
    requires IsMarker(line)
    ensures var i := LeadingSpaces(line);
            i + |Marker| <= |line| && AllSpace(line[..i]) && line[i..i + |Marker|] == Marker
            && AllSpace(line[i + |Marker|..])
  {
    StripShape(line);
  }

  /** The marker followed by more non-blank text, as in `import qualified Prelude as P`,
      is not a marker line. */
  lemma LongerLineNotMarker(a: string, x: string, b: string)
    requires AllSpace(a) && AllSpace(b)
    requires x != [] && !IsSpace(x[|x| - 1])
    ensures !IsMarker(a + Marker + x + b)
  {
    assert a + Marker + x + b == a + (Marker + x) + b;
    StripUnique(a, Marker + x, b);
  }

  lemma AliasedPreludeNotMarker()
    ensures !IsMarker("import qualified Prelude as P\n")
  {
    var x := " as P";
    assert "import qualified Prelude as P\n" == [] + Marker + x + "\n";
    LongerLineNotMarker([], x, "\n");
  }

  lemma IndentedMarker()
    ensures IsMarker("  import qualified Prelude\t\n")
  {
    var a, b := "  ", "\t\n";
    assert AllSpace(a) && AllSpace(b);
    MarkerPadded(a, b);
    assert a + Marker + b == "  import qualified Prelude\t\n";
  }

  // ----- LINE pragmas -----

  /** The three parts of `o + m + c` can be sliced back out of it. */
  lemma Frame(o: string, m: string, c: string)
    ensures (o + m + c)[..|o|] == o
    ensures (o + m + c)[|o| + |m|..] == c
    ensures (o + m + c)[|o|..|o| + |m|] == m
  {
  }

  /** Every pragma can be read back: it names exactly the line number and the filename
      it was made from, whatever characters the filename holds. */
  lemma PragmaRoundTrip(n: nat, filename: string)
    ensures ParsePragma(LinePragma(n, filename)) == Some(Position(n, filename))
  {
    var d := NatToDecimal(n);
    var mid := d + PragmaSep + filename;
    assert LinePragma(n, filename) == PragmaOpen + mid + PragmaClose;
    ParseFramed(mid);
    NumberedRoundTrip(d, filename);
    DecimalRoundTrip(n);
  }

  /** The reader strips the fixed opening and closing text and reads what is between. */
  lemma ParseFramed(mid: string)
    ensures ParsePragma(PragmaOpen + mid + PragmaClose) == ParseNumbered(mid)
  {
    Frame(PragmaOpen, mid, PragmaClose);
  }

  /** A canonical number, `" "` and any filename read back as that number and filename. */
  lemma NumberedRoundTrip(d: string, filename: string)
    requires Canonical(d)
    ensures ParseNumbered(d + PragmaSep + filename) == Some(Position(DecimalValue(d), filename))
  {
    var mid := d + PragmaSep + filename;
    Frame(d, PragmaSep, filename);
    DigitPrefixOf(d, PragmaSep + filename);
    assert d + (PragmaSep + filename) == mid;
  }

  /** Conversely, whatever `ParsePragma` accepts is a pragma `LinePragma` writes. */
  lemma ParsePragmaSound(s: string)
    requires ParsePragma(s).Some?
    ensures LinePragma(ParsePragma(s).value.line, ParsePragma(s).value.file) == s
  {
    Split3(s, |PragmaOpen|, |s| - |PragmaClose|);
    ParseNumberedSound(s[|PragmaOpen|..|s| - |PragmaClose|]);
  }

  /** Whatever `ParseNumbered` accepts is the decimal number, `" "` and the filename it read. */
  lemma ParseNumberedSound(mid: string)
    requires ParseNumbered(mid).Some?
    ensures var p := ParseNumbered(mid).value;
            NatToDecimal(p.line) + PragmaSep + p.file == mid
  {
    var k := DigitPrefixLength(mid);
    CanonicalRoundTrip(mid[..k]);
    assert mid == mid[..k] + PragmaSep + mid[k + |PragmaSep|..];
  }

  /** The header is the pragma for line 1. */
  lemma HeaderText(filename: string)
    ensures Header(filename) == "{-# LINE 1 \"" + filename + "\" #-}\n"
    ensures ParsePragma(Header(filename)) == Some(Position(1, filename))
  {
    assert NatToDecimal(1) == "1";
    PragmaRoundTrip(1, filename);
  }

  // ----- the output -----

  /** Whatever the input, the output starts with the pragma for line 1 of `filename`. */
  lemma RewriteStartsWithHeader(filename: string, lines: seq<string>)
    ensures "{-# LINE 1 \"" + filename + "\" #-}\n" <= Rewrite(filename, lines)
  {
    HeaderText(filename);
    assert Rewrite(filename, lines)[..|Header(filename)|] == Header(filename);
  }

  /** The output for the first `k` lines is a prefix of the whole output: the file is
      written front to back and never revised. */
  lemma {:induction false} RewritePrefix(filename: string, lines: seq<string>, k: nat)
    requires k <= |lines|
    ensures Rewrite(filename, lines[..k]) <= Rewrite(filename, lines)
    decreases |lines| - k
  {
    if k < |lines| {
      RewritePrefix(filename, lines, k + 1);
      RewriteGrows(filename, lines, k);
      PrefixTrans(Rewrite(filename, lines[..k]), Rewrite(filename, lines[..k + 1]),
                  Rewrite(filename, lines));
    } else {
      TakeAll(lines);
    }
  }

  lemma RewriteGrows(filename: string, lines: seq<string>, k: nat)
    requires k < |lines|
    ensures Rewrite(filename, lines[..k]) <= Rewrite(filename, lines[..k + 1])
  {
    RewriteStep(filename, lines, k);
  }

  lemma PrefixTrans(a: string, b: string, c: string)
    requires a <= b && b <= c
    ensures a <= c
  {
    assert c[..|a|] == b[..|a|];
  }

  /** The text written for line `i + 1` and everything before it is a prefix of the output. */
  lemma LineOutputPrefix(filename: string, lines: seq<string>, i: nat)
    requires i < |lines|
    ensures Rewrite(filename, lines[..i]) + Insertion(filename, lines[i], i + 1) + lines[i]
            <= Rewrite(filename, lines)
  {
    RewriteStep(filename, lines, i);
    RewritePrefix(filename, lines, i + 1);
  }

  /** Line `i + 1` of the input appears verbatim right after the output of the lines
      before it. A marker line is preceded there by the import block and the pragma
      naming its own line number; any other line is preceded by nothing. */
  lemma InsertionBeforeMarker(filename: string, lines: seq<string>, i: nat)
    requires i < |lines|
    ensures IsMarker(lines[i]) ==>
              Rewrite(filename, lines[..i]) + Imports + LinePragma(i + 1, filename) + lines[i]
              <= Rewrite(filename, lines)
    ensures !IsMarker(lines[i]) ==>
              Rewrite(filename, lines[..i]) + lines[i] <= Rewrite(filename, lines)
  {
    LineOutputPrefix(filename, lines, i);
    if IsMarker(lines[i]) {
      Assoc(Rewrite(filename, lines[..i]), Imports, LinePragma(i + 1, filename));
    } else {
      assert Insertion(filename, lines[i], i + 1) == [];
      AppendEmpty(Rewrite(filename, lines[..i]));
    }
  }

  /** The length of all text added in front of the marker lines numbered `ns`. */
  function AddedLength(filename: string, ns: seq<nat>): nat
    decreases |ns|
  {
    if ns == [] then 0
    else AddedLength(filename, ns[..|ns| - 1]) + |Imports| + |LinePragma(ns[|ns| - 1], filename)|
  }

  lemma AddedLengthSnoc(filename: string, ns: seq<nat>, n: nat)
    ensures AddedLength(filename, ns + [n])
            == AddedLength(filename, ns) + |Imports| + |LinePragma(n, filename)|
  {
    assert (ns + [n])[..|ns|] == ns;
  }

  /** A pragma is its fixed text, the decimal line number and the filename. */
  lemma PragmaLength(n: nat, filename: string)
    ensures |LinePragma(n, filename)| == 17 + |NatToDecimal(n)| + |filename|
  {
  }

  /** The output is as long as the header, the input, and one import block and one
      pragma for every marker line. */
  lemma {:induction false} RewriteLength(filename: string, lines: seq<string>)
    ensures |Rewrite(filename, lines)|
            == |Header(filename)| + |Concat(lines)| + AddedLength(filename, MarkerLines(lines))
    decreases |lines|
  {
    if lines != [] {
      var k := |lines| - 1;
      TakeAll(lines);
      RewriteStep(filename, lines, k);
      RewriteLength(filename, lines[..k]);
      var ns := MarkerLines(lines[..k]);
      if IsMarker(lines[k]) {
        AddedLengthSnoc(filename, ns, k + 1);
      } else {
        AppendEmpty(ns);
      }
    }
  }

  /** Without marker lines the output is the header followed by the input, and only then. */
  lemma NoMarkerIdentity(filename: string, lines: seq<string>)
    ensures (forall i :: 0 <= i < |lines| ==> !IsMarker(lines[i]))
            <==> Rewrite(filename, lines) == Header(filename) + Concat(lines)
  {
    if forall i :: 0 <= i < |lines| ==> !IsMarker(lines[i]) {
      NoMarkerCopies(filename, lines);
    } else {
      MarkerLengthens(filename, lines);
    }
  }

  lemma {:induction false} NoMarkerCopies(filename: string, lines: seq<string>)
    requires forall i :: 0 <= i < |lines| ==> !IsMarker(lines[i])
    ensures Rewrite(filename, lines) == Header(filename) + Concat(lines)
    decreases |lines|
  {
    if lines != [] {
      var k := |lines| - 1;
      var p := lines[..k];
      NoMarkerCopies(filename, p);
      PlainStep(filename, lines, k);
      TakeAll(lines);
      Assoc(Header(filename), Concat(p), lines[k]);
    }
  }

  /** A line that is not a marker line adds only itself to the output. */
  lemma PlainStep(filename: string, lines: seq<string>, k: nat)
    requires k < |lines| && !IsMarker(lines[k])
    ensures Rewrite(filename, lines[..k + 1]) == Rewrite(filename, lines[..k]) + lines[k]
  {
    RewriteStep(filename, lines, k);
    assert Insertion(filename, lines[k], k + 1) == [];
    AppendEmpty(Rewrite(filename, lines[..k]));
  }

  lemma MarkerLengthens(filename: string, lines: seq<string>)
    requires exists i :: 0 <= i < |lines| && IsMarker(lines[i])
    ensures |Rewrite(filename, lines)| > |Header(filename)| + |Concat(lines)|
  {
    var i :| 0 <= i < |lines| && IsMarker(lines[i]);
    MarkerLinesMembers(lines);
    assert i + 1 in MarkerLines(lines);
    RewriteLength(filename, lines);
    AddedLengthPositive(filename, MarkerLines(lines));
  }

  lemma {:induction false} AddedLengthPositive(filename: string, ns: seq<nat>)
    requires ns != []
    ensures AddedLength(filename, ns) > 0
  {
  }

  /** A marker line adds the import block, its own pragma and itself to the output. */
  lemma MarkerStep(filename: string, lines: seq<string>, k: nat)
    requires k < |lines| && IsMarker(lines[k])
    ensures Rewrite(filename, lines[..k + 1])
            == Rewrite(filename, lines[..k]) + Imports + LinePragma(k + 1, filename) + lines[k]
  {
    RewriteStep(filename, lines, k);
    Assoc(Rewrite(filename, lines[..k]), Imports, LinePragma(k + 1, filename));
  }
}
