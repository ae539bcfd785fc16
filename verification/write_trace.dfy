/**
 The program's output as the sequence of `out.write` calls it makes rather than
 as one string. Each call writes a `LINE` pragma, the import block, or an input
 line copied verbatim. In this form the laws about what is copied and what is
 added can be stated and proved.
 */
module WriteTrace {
  import opened FixImports
  import opened Seqs

  /** One `out.write` call. */
  datatype Write = Directive(line: nat) | ImportBlock | Copy(text: string)

  /** The text one call writes into the output file of `filename`. */
  function Text(w: Write, filename: string): string {
    match w
    case Directive(n) => LinePragma(n, filename)
    case ImportBlock => Imports
    case Copy(t) => t
  }

  /** The calls made for input line number `n`, which `marked` says is a marker line. */
  function LineWrites(line: string, n: nat, marked: bool): seq<Write> {
    (if marked then [ImportBlock, Directive(n)] else []) + [Copy(line)]
  }

  /** The calls the loop makes for `lines`. */
  function LoopWrites(lines: seq<string>): seq<Write>
    decreases |lines|
  {
    if lines == [] then []
    else
      var k := |lines| - 1;
      LoopWrites(lines[..k]) + LineWrites(lines[k], k + 1, IsMarker(lines[k]))
  }

  /** All the calls the program makes: the header pragma, then the loop's. */
  function Writes(lines: seq<string>): seq<Write> {
    [Directive(1)] + LoopWrites(lines)
  }

  // ----- views of a sequence of writes -----

  /** The output file after the calls `ws`. */
  function Render(ws: seq<Write>, filename: string): string
    decreases |ws|
  {
    if ws == [] then "" else Render(ws[..|ws| - 1], filename) + Text(ws[|ws| - 1], filename)
  }

  /** The output file with the text of every pragma and import block removed. */
  function Erase(ws: seq<Write>): string
    decreases |ws|
  {
    if ws == [] then ""
    else
      var w := ws[|ws| - 1];
      Erase(ws[..|ws| - 1]) + (if w.Copy? then w.text else "")
  }

  /** The copied lines, in the order they were written. */
  function Copies(ws: seq<Write>): seq<string>
    decreases |ws|
  {
    if ws == [] then []
    else
      var w := ws[|ws| - 1];
      Copies(ws[..|ws| - 1]) + (if w.Copy? then [w.text] else [])
  }

  /** The line numbers of the pragmas, in the order they were written. */
  function Directives(ws: seq<Write>): seq<nat>
    decreases |ws|
  {
    if ws == [] then []
    else
      var w := ws[|ws| - 1];
      Directives(ws[..|ws| - 1]) + (if w.Directive? then [w.line] else [])
  }

  /** How many import blocks were written. */
  function ImportBlocks(ws: seq<Write>): nat
    decreases |ws|
  {
    if ws == [] then 0
    else ImportBlocks(ws[..|ws| - 1]) + (if ws[|ws| - 1] == ImportBlock then 1 else 0)
  }

  /** Every import block is followed by a pragma and then a copied marker line, and the
      pragma names the position of that marker line among the copied lines. */
  predicate ImportsPlaced(ws: seq<Write>) {
    forall k :: 0 <= k < |ws| && ws[k] == ImportBlock ==> BlockPlaced(ws, k)
  }

  /** The writes after position `k` are a pragma and a copied marker line, and the pragma
      names the position of that line among the copied lines. */
  predicate BlockPlaced(ws: seq<Write>, k: nat) {
    k + 2 < |ws| && ws[k + 2].Copy? && IsMarker(ws[k + 2].text)
    && ws[k + 1] == Directive(|Copies(ws[..k + 3])|)
  }

  // ----- the views distribute over concatenation -----

  lemma {:induction false} RenderAppend(a: seq<Write>, b: seq<Write>, filename: string)
    ensures Render(a + b, filename) == Render(a, filename) + Render(b, filename)
    decreases |b|
  {
    if b == [] {
      assert a + b == a;
    } else {
      var b' := b[..|b| - 1];
      assert (a + b)[..|a + b| - 1] == a + b';
      RenderAppend(a, b', filename);
    }
  }

  lemma {:induction false} EraseAppend(a: seq<Write>, b: seq<Write>)
    ensures Erase(a + b) == Erase(a) + Erase(b)
    decreases |b|
  {
    if b == [] {
      assert a + b == a;
    } else {
      var b' := b[..|b| - 1];
      assert (a + b)[..|a + b| - 1] == a + b';
      EraseAppend(a, b');
    }
  }

  lemma {:induction false} CopiesAppend(a: seq<Write>, b: seq<Write>)
    ensures Copies(a + b) == Copies(a) + Copies(b)
    decreases |b|
  {
    if b == [] {
      assert a + b == a;
    } else {
      var b' := b[..|b| - 1];
      assert (a + b)[..|a + b| - 1] == a + b';
      CopiesAppend(a, b');
    }
  }

  lemma {:induction false} DirectivesAppend(a: seq<Write>, b: seq<Write>)
    ensures Directives(a + b) == Directives(a) + Directives(b)
    decreases |b|
  {
    if b == [] {
      assert a + b == a;
    } else {
      var b' := b[..|b| - 1];
      assert (a + b)[..|a + b| - 1] == a + b';
      DirectivesAppend(a, b');
    }
  }

  lemma {:induction false} ImportBlocksAppend(a: seq<Write>, b: seq<Write>)
    ensures ImportBlocks(a + b) == ImportBlocks(a) + ImportBlocks(b)
    decreases |b|
  {
    if b == [] {
      assert a + b == a;
    } else {
      var b' := b[..|b| - 1];
      assert (a + b)[..|a + b| - 1] == a + b';
      ImportBlocksAppend(a, b');
    }
  }

  /** What the calls for one line amount to in each view. */
  lemma LineViews(line: string, n: nat, marked: bool, filename: string)
    ensures Render(LineWrites(line, n, marked), filename)
            == (if marked then Imports + LinePragma(n, filename) else "") + line
    ensures Erase(LineWrites(line, n, marked)) == line
    ensures Copies(LineWrites(line, n, marked)) == [line]
    ensures Directives(LineWrites(line, n, marked)) == if marked then [n] else []
    ensures ImportBlocks(LineWrites(line, n, marked)) == if marked then 1 else 0
  {
    LineWritesShape(line, n, marked);
    if marked {
      var a, b, c := [ImportBlock], [Directive(n)], [Copy(line)];
      InsertedSplit(line, n);
      SingleViews(ImportBlock, filename);
      SingleViews(Directive(n), filename);
      SingleViews(Copy(line), filename);
      RenderAppend(a, b, filename);
      RenderAppend(a + b, c, filename);
      EraseAppend(a, b);
      EraseAppend(a + b, c);
      CopiesAppend(a, b);
      CopiesAppend(a + b, c);
      DirectivesAppend(a, b);
      DirectivesAppend(a + b, c);
      ImportBlocksAppend(a, b);
      ImportBlocksAppend(a + b, c);
    } else {
      PlainLineViews(line, filename);
      assert [] + line == line;
    }
  }

  lemma LineWritesShape(line: string, n: nat, marked: bool)
    ensures marked ==> LineWrites(line, n, marked) == [ImportBlock, Directive(n), Copy(line)]
    ensures !marked ==> LineWrites(line, n, marked) == [Copy(line)]
  {
  }

  lemma InsertedSplit(line: string, n: nat)
    ensures [ImportBlock, Directive(n), Copy(line)] == [ImportBlock] + [Directive(n)] + [Copy(line)]
  {
  }

  lemma PlainLineViews(line: string, filename: string)
    ensures var ws := [Copy(line)];
            Render(ws, filename) == line && Erase(ws) == line && Copies(ws) == [line]
            && Directives(ws) == [] && ImportBlocks(ws) == 0
  {
    SingleViews(Copy(line), filename);
  }

  /** One write in each view. */
  lemma SingleViews(w: Write, filename: string)
    ensures Render([w], filename) == Text(w, filename)
    ensures Erase([w]) == if w.Copy? then w.text else ""
    ensures Copies([w]) == if w.Copy? then [w.text] else []
    ensures Directives([w]) == if w.Directive? then [w.line] else []
    ensures ImportBlocks([w]) == if w == ImportBlock then 1 else 0
  {
    assert [w][..0] == [];
  }

  // ----- the loop's writes, line by line -----

  lemma {:induction false} LoopRender(filename: string, lines: seq<string>)
    ensures Render(LoopWrites(lines), filename) == Emitted(filename, lines)
    decreases |lines|
  {
    if lines != [] {
      var k := |lines| - 1;
      var p := lines[..k];
      RenderAppend(LoopWrites(p), LineWrites(lines[k], k + 1, IsMarker(lines[k])), filename);
      LineViews(lines[k], k + 1, IsMarker(lines[k]), filename);
      LoopRender(filename, p);
      Assoc(Emitted(filename, p), Insertion(filename, lines[k], k + 1), lines[k]);
    }
  }

  lemma {:induction false} LoopCopies(lines: seq<string>)
    ensures Copies(LoopWrites(lines)) == lines
    decreases |lines|
  {
    if lines != [] {
      var k := |lines| - 1;
      var p := lines[..k];
      var w, b := LoopWrites(p), LineWrites(lines[k], k + 1, IsMarker(lines[k]));
      assert LoopWrites(lines) == w + b;
      CopiesAppend(w, b);
      LoopCopies(p);
      LineViews(lines[k], k + 1, IsMarker(lines[k]), "");
      assert Copies(w + b) == p + [lines[k]];
      Snoc(lines);
    }
  }

  lemma {:induction false} LoopErase(lines: seq<string>)
    ensures Erase(LoopWrites(lines)) == Concat(lines)
    decreases |lines|
  {
    if lines != [] {
      var k := |lines| - 1;
      var p := lines[..k];
      EraseAppend(LoopWrites(p), LineWrites(lines[k], k + 1, IsMarker(lines[k])));
      LineViews(lines[k], k + 1, IsMarker(lines[k]), "");
      LoopErase(p);
    }
  }

  lemma {:induction false} LoopDirectives(lines: seq<string>)
    ensures Directives(LoopWrites(lines)) == MarkerLines(lines)
    decreases |lines|
  {
    if lines != [] {
      var k := |lines| - 1;
      var p := lines[..k];
      var m := IsMarker(lines[k]);
      var w, b := LoopWrites(p), LineWrites(lines[k], k + 1, m);
      assert Directives(w + b) == MarkerLines(p) + (if m then [k + 1] else []) by {
        DirectivesAppend(w, b);
        LoopDirectives(p);
        LineViews(lines[k], k + 1, m, "");
      }
      assert MarkerLines(p) + [] == MarkerLines(p);
    }
  }

  lemma {:induction false} LoopImportBlocks(lines: seq<string>)
    ensures ImportBlocks(LoopWrites(lines)) == |MarkerLines(lines)|
    decreases |lines|
  {
    if lines != [] {
      var k := |lines| - 1;
      var p := lines[..k];
      ImportBlocksAppend(LoopWrites(p), LineWrites(lines[k], k + 1, IsMarker(lines[k])));
      LineViews(lines[k], k + 1, IsMarker(lines[k]), "");
      LoopImportBlocks(p);
    }
  }

  /** Appending the writes for the next line keeps every import block in place. */
  lemma PlacedAppend(a: seq<Write>, line: string, n: nat, marked: bool)
    requires ImportsPlaced(a) && |Copies(a)| + 1 == n
    requires marked ==> IsMarker(line)
    ensures ImportsPlaced(a + LineWrites(line, n, marked))
  {
    var b := LineWrites(line, n, marked);
    var ws := a + b;
    LineWritesShape(line, n, marked);
    forall k | 0 <= k < |ws| && ws[k] == ImportBlock
      ensures BlockPlaced(ws, k)
    {
      if k < |a| {
        assert a[k] == ImportBlock;
        PlacedEarlier(a, b, k);
      } else {
        assert k == |a| && marked;
        PlacedNew(a, line, n);
      }
    }
  }

  /** The import block written for a marker line is placed in front of its pragma and copy. */
  lemma PlacedNew(a: seq<Write>, line: string, n: nat)
    requires |Copies(a)| + 1 == n && IsMarker(line)
    ensures BlockPlaced(a + LineWrites(line, n, true), |a|)
  {
    var ws := a + LineWrites(line, n, true);
    LineWritesShape(line, n, true);
    CopiesAppend(a, LineWrites(line, n, true));
    LineViews(line, n, true, "");
    TakeAll(ws);
  }

  /** An import block already placed in `a` stays placed when more writes follow. */
  lemma PlacedEarlier(a: seq<Write>, b: seq<Write>, k: nat)
    requires BlockPlaced(a, k)
    ensures BlockPlaced(a + b, k)
  {
    TakeOfAppend(a, b, k + 3);
  }

  lemma {:induction false} LoopPlaced(lines: seq<string>)
    ensures ImportsPlaced(LoopWrites(lines))
    decreases |lines|
  {
    if lines != [] {
      var k := |lines| - 1;
      var p := lines[..k];
      LoopPlaced(p);
      LoopCopies(p);
      PlacedAppend(LoopWrites(p), lines[k], k + 1, IsMarker(lines[k]));
    }
  }

  // ----- the program's writes -----

  /** The writes produce exactly the output file `Rewrite` describes. */
  lemma RenderedWrites(filename: string, lines: seq<string>)
    ensures Render(Writes(lines), filename) == Rewrite(filename, lines)
  {
    RenderAppend([Directive(1)], LoopWrites(lines), filename);
    SingleViews(Directive(1), filename);
    LoopRender(filename, lines);
  }

  /** Every input line is written verbatim, once, and in its original order. */
  lemma CopiesAreLines(lines: seq<string>)
    ensures Copies(Writes(lines)) == lines
  {
    CopiesAppend([Directive(1)], LoopWrites(lines));
    SingleViews(Directive(1), "");
    LoopCopies(lines);
  }

  /** Removing the header, the import blocks and the pragmas gives back the input text. */
  lemma EraseAddedText(lines: seq<string>)
    ensures Erase(Writes(lines)) == Concat(lines)
  {
    EraseAppend([Directive(1)], LoopWrites(lines));
    SingleViews(Directive(1), "");
    LoopErase(lines);
  }

  /** The pragmas name line 1 and then, in order, exactly the marker lines. */
  lemma DirectivesAtMarkers(lines: seq<string>)
    ensures Directives(Writes(lines)) == [1] + MarkerLines(lines)
  {
    DirectivesAppend([Directive(1)], LoopWrites(lines));
    SingleViews(Directive(1), "");
    LoopDirectives(lines);
  }

  /** One import block is written per marker line, not just for the first. */
  lemma ImportBlockCount(lines: seq<string>)
    ensures ImportBlocks(Writes(lines)) == |MarkerLines(lines)|
  {
    ImportBlocksAppend([Directive(1)], LoopWrites(lines));
    SingleViews(Directive(1), "");
    LoopImportBlocks(lines);
  }

  /** Every import block comes right before the pragma and the copy of the marker line
      that caused it, and that pragma names the marker line's number in the input. */
  lemma ImportBlocksPlaced(lines: seq<string>)
    ensures ImportsPlaced(Writes(lines))
  {
    var l := LoopWrites(lines);
    var ws := Writes(lines);
    LoopPlaced(lines);
    forall k | 0 <= k < |ws| && ws[k] == ImportBlock
      ensures BlockPlaced(ws, k)
    {
      assert l[k - 1] == ImportBlock;
      PlacedAfterHeader(l, k - 1);
    }
  }

  /** The header pragma in front does not move any block away from its pragma and line. */
  lemma PlacedAfterHeader(l: seq<Write>, k: nat)
    requires BlockPlaced(l, k)
    ensures BlockPlaced([Directive(1)] + l, k + 1)
  {
    var ws := [Directive(1)] + l;
    assert ws[..k + 4] == [Directive(1)] + l[..k + 3];
    CopiesAppend([Directive(1)], l[..k + 3]);
    SingleViews(Directive(1), "");
  }
}
