# Cable splitter, modelled in Dafny

This project models the `Splitter` of the coding exercise. `Splitter.split(cable, times)` checks the cut count and the cable length. It divides the length into `times + 1` equal sections with `divmod`, then carves further equal sections out of the remainder with a second `divmod`. It names each piece `<cable name>-<zero-filled index>` and appends the pieces to a list that the splitter object keeps.

Files:

- `results.dfy` (`Results`): `Option`, `Result` and `Outcome`. They stand for Python's exceptions.
- `cable.dfy` (`Cables`): the `Cable(length, name)` value and the summed length of a list of cables. The source of the `Cable` class is not part of this model. The splitter only reads its two fields and calls its constructor.
- `decimal.dfy` (`Decimal`): Python's `str(n)` and `str.zfill(width)` on natural numbers, and parsing a zero-filled suffix back.
- `splitter.dfy` (`Splitting`): the constants, `__validate` (`Validate`) and `__format_cable_name` (`FormatCableName`). It also holds the partition arithmetic (`ComputePlan`) and the `Splitter` class, whose `Split` method works on a `seq<Cable>` field. The `for` loop of `split` is the method `AppendEqualPieces`, proved with a loop invariant. `Splitter.SplitFresh` is the corrected call: it builds the pieces in a local list (`BuildPieces`) and changes nothing of the splitter.
- `defects.dfy` (`SplitterDefects`): the defects on concrete inputs, corrected definitions with their properties proved, and a few concrete splits.

The Python `split` cannot run as written. The model reads it as its authors evidently meant, and each reading is marked in a comment in `splitter.dfy`:

- `self.equal_sections`, `self.equal_length` and `self.remainder` (lines 102-121) are never assigned. They are read as the locals computed at lines 87-95.
- `self.tolal_sections` (line 98) and `self.total_sections` (line 100) are one value: the field `totalSections`.
- Lines 107, 114 and 123 pass a third argument, the piece count, to a two-parameter function. The model reads it as the padding width source: the index is zero-filled to the number of digits of the piece count (`FormatCableName`). The two-parameter body as written takes the width from `len(self.result)`. It is modelled as `FormatCableNameAsWritten`, which takes the current `result`; `EqualPiecesAsWritten` and `NewPiecesAsWritten` name the pieces with it as `result` grows. It is a finding below.

Every other line is kept as written, including two defects. First, the extra piece is `equal_length + 1` long, so lengths add up to the cable's only when the second remainder is 0. Second, `self.result` is never cleared, so each call returns the pieces of every earlier call too.

Where what a splitter evidently should do and what the code does differ, `Split` follows the code:

- The lengths of the pieces should add up to the cable's: 10 cut twice should give 3, 3 and 4. The code adds an extra piece of `equal_length + 1`, so they do not when the second remainder is positive.
- Every cut count from 1 to 1024 passes validation, `times = 1024` with `length = 1024` included. In the code `equal_length` is then `1024 // 1025 == 0`, so the second `divmod` divides by zero. The model returns `ZeroDivision` whenever `times + 1 > length`.
- Padding to the width of the largest index would give `A-0`..`A-9` for ten pieces. The call sites pass the piece count, so the model pads to the digits of the count. The two differ at 10, 100 and 1000 pieces: ten pieces are `A-00`..`A-09` here.
- One call should return only its own pieces. The code keeps `result` across calls.

## Model

| member | source | states |
|---|---|---|
| `Splitting.Validate` | src/coding_exercise/application/splitter.py:39-45 | Accepts exactly when `1 <= times <= 1024` and `2 <= length <= 1024`. A bad cut count is reported as `TimesOutOfRange` even when the length is bad too. A bad length alone is `LengthOutOfRange`. |
| `Splitting.ComputePlan` | src/coding_exercise/application/splitter.py:87-100 | Fails with `ZeroDivision` exactly when `times + 1 > length`. Otherwise both remainders are in range and `equal_length >= 1`. Also `equal_sections = times + 1 + extra_sections`, and `total_sections` adds 1 when the second remainder is non-zero, so it is at least `times + 1`. |
| `Splitting.PlanDivMod` | src/coding_exercise/application/splitter.py:89-95 | States the two `divmod` identities: `length == (times+1)*equal_length + remainder_length` and `remainder_length == extra_sections*equal_length + remainder`. So the equal sections cover `length - remainder`. |
| `Splitting.EqualPiecesAt` | src/coding_exercise/application/splitter.py:102-109 | The loop produces `count` pieces. Piece `k` has length `equal_length` and its name carries index `k`, zero-filled. |
| `Splitting.EqualPiecesTotal` | src/coding_exercise/application/splitter.py:102-109 | The loop's pieces add up to `count * equal_length`. |
| `Splitting.PiecesShape` | src/coding_exercise/application/splitter.py:102-126 | A successful call makes `total_sections >= times + 1` pieces, with piece `k` named by index `k` in order. The first `equal_sections` pieces are `equal_length` long. When the second remainder is positive, the piece at `total_sections - 1` is `equal_length + 1` long. |
| `Splitting.PieceCount` | src/coding_exercise/application/splitter.py:95-100 | A valid split with `times + 1 <= length` succeeds with exactly `total_sections` pieces. |
| `Splitting.NewPiecesTotal` | src/coding_exercise/application/splitter.py:102-126 | The appended lengths add up to `equal_sections * equal_length`, plus `equal_length + 1` when the second remainder is non-zero. |
| `Splitting.PiecesTotal` | src/coding_exercise/application/splitter.py:118-126 | The pieces add up to `length - remainder`, plus `equal_length + 1` when the remainder is positive. |
| `Splitting.ConservedIffNoRemainder` | src/coding_exercise/application/splitter.py:118-126 | The sum equals the cable's length exactly when the second remainder is 0. When the remainder is positive, the sum is strictly greater. |
| `Splitting.SuffixWidthUniform` | src/coding_exercise/application/splitter.py:65 | Every index below the piece count is zero-filled to the same width, the digit count of the piece count. So all names of one result have one length. |
| `Splitting.NameRoundTrip` | src/coding_exercise/application/splitter.py:65 | Stripping `name-` and the leading zeros from a piece name gives back its index. |
| `Splitting.EqualPiecesAsWrittenAt` | src/coding_exercise/application/splitter.py:64-65 | With the naming as written, the loop keeps what `result` held and appends `count` pieces. The piece at position `j` carries index `j - len(result)`, zero-filled to the digits of `j`: the length of `result` when that piece was named. |
| `Splitting.AsWrittenFreshNeverPads` | src/coding_exercise/application/splitter.py:64-65 | With the naming as written, the first call on a new splitter names every piece `k` as `name-k`, with no padding. The extra piece is included. The lengths are unchanged: `equal_length`, then `equal_length + 1` for the extra piece. |
| `Splitting.Splitter.constructor` | src/coding_exercise/application/splitter.py:11-15 | A new splitter has an empty `result` and `length == 0`. |
| `Splitting.Splitter.Split` | src/coding_exercise/application/splitter.py:67-128 | A rejected call returns the validation error and changes no field. A division by zero has already set `length`, and changes nothing else. A successful call appends exactly the new pieces to the old `result`, sets `length` and `totalSections`, and returns all of `result`. |
| `Splitting.Splitter.AppendEqualPieces` | src/coding_exercise/application/splitter.py:102-116 | The loop appends exactly the `equal_sections` equal pieces to `result`. Its `equal_length + 1` branch is unreachable: it holds only `assert false`. |
| `Splitting.Splitter.SplitFresh` | src/coding_exercise/application/splitter.py:13 | Corrected: the call returns its own pieces or its error, whatever the splitter held before. It has no `modifies` clause, so no field of the splitter changes. |
| `Splitting.BuildPieces` | src/coding_exercise/application/splitter.py:102-126 | The loop and the extra piece, built in a local list, give exactly the pieces one call appends. |
| `Splitting.SplitOnFreshSplitter` | src/coding_exercise/application/splitter.py:128 | On a new splitter, `split` returns exactly the pieces of its own input, or its error. |
| `Decimal.NatToStringRoundTrip` | src/coding_exercise/application/splitter.py:65 | `str(n)` is a digit string whose value is `n`. |
| `Decimal.ZFillSpec` | src/coding_exercise/application/splitter.py:65 | `zfill` leaves a string of at least `width` characters alone. A shorter one becomes exactly `width` long: the original at the end, `'0'`s before it. |
| `Decimal.StripZFill` | src/coding_exercise/application/splitter.py:65 | Dropping the leading zeros of `str(n).zfill(w)` gives back `str(n)`. |
| `Decimal.DigitsMonotone` | src/coding_exercise/application/splitter.py:64 | A larger number never has fewer decimal digits. |
| `SplitterDefects.RemainderPieceOvershoots` | src/coding_exercise/application/splitter.py:118-126 | As written, 10 units cut twice give pieces 3, 3, 3 and 4, 13 units in all. |
| `SplitterDefects.ConservingSplitCorrect` | src/coding_exercise/application/splitter.py:87-126 | Corrected: the last equal section takes the remainder. The lengths add up to the cable's, there are `equal_sections >= times + 1` pieces, and all are `equal_length >= 1` long except the last, which is `equal_length + remainder`. Names follow the position. |
| `SplitterDefects.ConservingExample` | src/coding_exercise/application/splitter.py:118-126 | Corrected: 10 units cut twice give 3, 3 and 4. |
| `SplitterDefects.ReuseLeaks` | src/coding_exercise/application/splitter.py:104 | As written, a second call on the same splitter returns 6 pieces, and the first call's 2 pieces are its prefix. |
| `SplitterDefects.ReuseIsolated` | src/coding_exercise/application/splitter.py:119 | Corrected: the second call on the same splitter returns exactly its own 4 pieces. |
| `SplitterDefects.AsWrittenPaddingExample` | src/coding_exercise/application/splitter.py:64 | As written, `Cable(10, "A")` cut 9 times on a new splitter names its first piece `A-0`. Padding to the piece count gives `A-00`. |
| `SplitterDefects.TenPiecesExample` | src/coding_exercise/application/splitter.py:102-107 | Ten pieces are named `A-00` to `A-09`. |
| `SplitterDefects.ExactDivisionExample` | src/coding_exercise/application/splitter.py:89-109 | `Cable(10, "A")` cut once gives `Cable(5, "A-0")` and `Cable(5, "A-1")`. |
| `SplitterDefects.TwelvePiecesExample` | src/coding_exercise/application/splitter.py:65 | Twelve pieces are named `A-00` to `A-11`. |
| `SplitterDefects.BoundaryExamples` | src/coding_exercise/application/splitter.py:6-9 | Length 2 cut once gives two pieces of 1. Length 1024 cut 1024 times divides by zero. Cut counts 0 and 1025 and lengths 1 and 1025 are rejected, the cut count first. |

## Left out

- The `isinstance` checks (lines 33-37): Dafny's types rule them out. `SplitError.TypeError` exists but nothing produces it.
- The exception messages (lines 40-45): errors are the `SplitError` tags, not strings.
- The fields `longest_int` and `cable_count` (lines 12, 14): nothing reads them.
- The `Cable` class internals: its source is not part of this model. No invariant is assumed beyond its two fields.
- The `AttributeError` and the `TypeError` from the three-argument call: the model replaces both with the intended reading described above.
- Aliasing: Python returns the `self.result` list object itself, so a caller's list keeps growing with later calls. The model returns the value of `result` at the end of the call.
- `Splitting.Splitter.Split`: its arithmetic goes through `ComputePlan` instead of inline statements. The loop runs in the separate method `AppendEqualPieces`. The order of the field updates and appends is the source's.

## Findings

| source | as written | input that shows it | evidently intended | confidence | as-written member | corrected member |
|---|---|---|---|---|---|---|
| src/coding_exercise/application/splitter.py:118-126 | When the second remainder is positive, an extra piece of `equal_length + 1` is added after the `equal_sections` equal pieces. | `Cable(10, "A")`, `times = 2` gives 3, 3, 3, 4 (sum 13) | The lengths add up to the cable's: 3, 3, 4 | not executed | `SplitterDefects.RemainderPieceOvershoots` | `SplitterDefects.ConservingSplitCorrect` |
| src/coding_exercise/application/splitter.py:13 | `self.result` is created once and never cleared, and `split` returns it. | Cut `Cable(10, "A")` once, then `Cable(10, "B")` twice, on one splitter: the second call returns 6 pieces | Each call returns only its own pieces, and the splitter keeps none of them | not executed | `SplitterDefects.ReuseLeaks` | `Splitting.Splitter.SplitFresh` |
| src/coding_exercise/application/splitter.py:64 | The padding width is the digit count of `len(self.result)`, so the first call on a new splitter never pads (`Splitting.AsWrittenFreshNeverPads`). | A new splitter, `Cable(10, "A")`, `times = 9`: the first name is `A-0` | The width is the digit count of the piece count: `A-00` | not executed | `SplitterDefects.AsWrittenPaddingExample` | `Splitting.SuffixWidthUniform` |

`Splitting.Splitter.Split` models the code as written, so it keeps the first two defects. `SplitterDefects.ConservingSplit` and `Splitting.Splitter.SplitFresh` are the corrected behaviour. The naming in `Split` already uses the corrected width; `Splitting.NewPiecesAsWritten` is the naming as written.
