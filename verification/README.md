# fiximports, modelled in Dafny

`src/fiximports.py` is a preprocessor that GHC runs as `ghc -F -pgmF` on every
Haskell source file of the project. It copies the file line by line. Before
every line whose `strip()` is `import qualified Prelude` it writes two more
imports, `Data.Bits` and `Data.Char`. It then writes a `{-# LINE n "file" #-}`
pragma, so that GHC again reports positions in the original file. The output
itself starts with a `LINE 1` pragma for the same reason.

The model is a pure function `FixImports.Rewrite(filename, lines)`. It takes
the input file as the sequence of lines Python's file iterator yields, each
with the line terminator the iterator leaves on it, and returns the text
written to the output file. Under Python 3 these lines are decoded text with
line ends already turned into `\n` (see "Left out"), so "the input" below
means that text, not the file's bytes.
The modules are:

- `PyStr` (`pystr.dfy`): Python 3's argument-less `str.strip()`, with
  `lstrip`/`rstrip` halves, and the whitespace set of `str.isspace()`.
- `Decimal` (`decimal.dfy`): the `%d` conversion of a line number, and the
  reading of a digit string back into a number.
- `FixImports` (`fiximports.dfy`): the marker, the import block, the `LINE`
  pragma, `Rewrite` and the loop `RunFixImports` that builds the same text
  one write at a time. It also has a reader for `LINE` pragmas.
- `RewriteLaws` (`rewrite_laws.dfy`): properties of `Rewrite` for all inputs.
- `WriteTrace` (`write_trace.dfy`): the output as the sequence of
  `out.write` calls. Each call is a pragma, the import block or a copied
  line, which lets "what is copied" and "what is added" be stated separately.

The code inserts the block before the marker line, and it does so for every
marker line: see `InsertionBeforeMarker`, `ImportBlockCount` and
`DirectivesAtMarkers`.

## Model

| member | source | states |
|---|---|---|
| PyStr.TrimLeftSpec | src/fiximports.py:17 | the result is a suffix of the line; everything removed is whitespace; the result is empty or starts with non-whitespace |
| PyStr.TrimRightSpec | src/fiximports.py:17 | the result is a prefix of the line; everything removed is whitespace; the result is empty or ends in non-whitespace |
| PyStr.StripShape | src/fiximports.py:17 | `strip()` returns a slice of the line that has only whitespace before and after it, and no whitespace at either of its own ends |
| PyStr.StripUnique | src/fiximports.py:17 | for any whitespace padding `a`, `b` and any string `m` without whitespace at its ends, `strip(a + m + b)` is exactly `m` |
| Decimal.NatToDecimal | src/fiximports.py:19 | `%d` of a line number is a non-empty digit string without leading zeros, one digit long exactly for numbers below 10 |
| Decimal.DecimalRoundTrip | src/fiximports.py:19 | reading back the digits `%d` printed gives the same number |
| Decimal.CanonicalRoundTrip | src/fiximports.py:19 | every digit string without leading zeros is what `%d` prints for its value |
| Decimal.NatToDecimalInjective | src/fiximports.py:19 | two line numbers print the same exactly when they are equal |
| FixImports.RunFixImports | src/fiximports.py:15-20 | the header write followed by the loop's writes (import block and pragma before each marker line, then the line) produces exactly `Rewrite(filename, lines)` |
| FixImports.RewriteStep | src/fiximports.py:16-20 | reading line `k + 1` appends to the output exactly that line's insertion and then the line itself |
| FixImports.MarkerLinesMembers | src/fiximports.py:16-17 | a number `i + 1` is listed exactly when line `i + 1`, counting from 1, strips to the marker |
| FixImports.MarkerLinesBounded | src/fiximports.py:16 | every listed number is between 1 and the number of lines, as `enumerate(..., 1)` counts |
| FixImports.MarkerLinesIncreasing | src/fiximports.py:16 | the marker line numbers are listed in strictly increasing order, as `enumerate` visits the lines |
| RewriteLaws.MarkerPadded | src/fiximports.py:17 | the marker with any whitespace around it, `\n` included, counts as a marker line |
| RewriteLaws.MarkerLineShape | src/fiximports.py:17 | conversely, a marker line is the marker with only whitespace before and after it |
| RewriteLaws.LongerLineNotMarker | src/fiximports.py:17 | the marker followed by further text that ends in non-whitespace is not a marker line, whatever the padding |
| RewriteLaws.AliasedPreludeNotMarker | src/fiximports.py:17 | `import qualified Prelude as P` is not a marker line |
| RewriteLaws.IndentedMarker | src/fiximports.py:17 | an indented marker followed by a tab and `\n` is a marker line |
| RewriteLaws.PragmaRoundTrip | src/fiximports.py:19 | a pragma can be read back into exactly the line number and filename it was made from, whatever characters the filename contains |
| RewriteLaws.ParsePragmaSound | src/fiximports.py:19 | every string the pragma reader accepts is exactly the pragma written for what it read |
| RewriteLaws.NumberedRoundTrip | src/fiximports.py:19 | any canonical digit string, then `" "`, then any filename, reads back as that number and that filename |
| RewriteLaws.HeaderText | src/fiximports.py:15 | the header is `{-# LINE 1 "` + filename + `" #-}` and a newline, and reads back as line 1 of that file |
| RewriteLaws.RewriteStartsWithHeader | src/fiximports.py:15 | for every input the output begins with `{-# LINE 1 "` + filename + `" #-}` and a newline |
| RewriteLaws.RewritePrefix | src/fiximports.py:16-20 | the output for the first `k` lines is a prefix of the output for the whole file: text once written is never changed |
| RewriteLaws.InsertionBeforeMarker | src/fiximports.py:16-20 | right after the output of the lines before it, line `i + 1` appears verbatim; if it is a marker line, the import block and a pragma naming line `i + 1` come between, and otherwise nothing does |
| RewriteLaws.PlainStep | src/fiximports.py:17-20 | a line that is not a marker line adds only itself to the output |
| RewriteLaws.MarkerStep | src/fiximports.py:17-20 | a marker line adds the import block, then the pragma for its own number, then itself |
| RewriteLaws.PragmaLength | src/fiximports.py:19 | a pragma is 17 characters longer than its line number's digits and the filename together |
| RewriteLaws.RewriteLength | src/fiximports.py:15-20 | the output length is the header, plus the input, plus for each marker line the import block and that line's pragma |
| RewriteLaws.NoMarkerIdentity | src/fiximports.py:15-20 | the output is the header followed by the unchanged input exactly when no line strips to the marker |
| RewriteLaws.MarkerLengthens | src/fiximports.py:17-19 | one marker line makes the output longer than the header plus the input |
| WriteTrace.RenderedWrites | src/fiximports.py:15-20 | the text of the program's write calls, in order, is exactly `Rewrite(filename, lines)` |
| WriteTrace.CopiesAreLines | src/fiximports.py:20 | the copied lines among the writes are the input lines, each once, verbatim and in order |
| WriteTrace.EraseAddedText | src/fiximports.py:15-20 | removing the header, every import block and every pragma from the output leaves exactly the concatenated input lines, as the file iterator yields them |
| WriteTrace.DirectivesAtMarkers | src/fiximports.py:15-19 | the pragmas written name line 1 and then, in increasing order, exactly the marker lines |
| WriteTrace.ImportBlockCount | src/fiximports.py:16-18 | one import block is written per marker line, not only for the first |
| WriteTrace.ImportBlocksPlaced | src/fiximports.py:16-20 | every import block is followed by a pragma and then the marker line that caused it; the pragma names that line's position among the copied lines |

## Left out

- Command-line handling (`sys.argv`, including the ignored first argument), opening, writing and closing the files, and I/O errors (src/fiximports.py:13-14, 21). The filename is a parameter, and the output is the returned string.
- The splitting of the file into lines by Python's file iterator. The model takes the lines as given. It does not require that every line but the last ends in `\n`, because no property here depends on it.
- Text-mode reading under Python 3 (src/fiximports.py:16). `open(filename)` decodes the file with the locale's encoding, and a byte sequence it cannot decode raises `UnicodeDecodeError` partway through the loop, after part of the output has been written. It also reads with universal newlines, so `\r\n` and lone `\r` line ends reach the loop as `\n`, and a CRLF file is written back with LF line ends. The model's `lines` are the already decoded and normalised text, so `Concat(lines)` is that text and not the file's bytes, and the decoding error is not modelled. Python 2 on POSIX reads bytes unchanged and has neither effect.
- The unclosed input file handle. It has no effect on the output.
- `PyStr.IsSpace` follows Python 3, where `strip()` on text removes every Unicode whitespace character. Under Python 2, which the `#!/usr/bin/env python` line may select, the lines are byte strings and only ASCII space, `\t`, `\n`, `\v`, `\f` and `\r` are removed. The two differ only for lines padded with other whitespace characters, such as U+00A0 or U+001C.
- The filename is written into the pragmas without escaping, as the code does. A filename containing `"` therefore yields a pragma GHC may misread. The model reproduces that and does not judge it. `PragmaRoundTrip` still holds because the reader takes the filename up to the fixed closing text.
- Running the program twice on the same input gives the same output. This holds trivially, because `Rewrite` is a function.
