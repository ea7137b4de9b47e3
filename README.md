# catr: line numbering and printing, modelled in Dafny

catr is a small `cat` clone. Its `run` function does these steps in order:

- it walks the files named on the command line;
- for each file, it reports one that cannot be opened on standard error and goes on;
- it reads every line of an opened file before printing any of them, and stops the whole run with an error when reading fails;
- it prints each line, optionally numbered:
  - `-n` (`--number`) numbers every line;
  - `-b` (`--number-nonblock`) numbers only the non-empty lines.

A number is written the way `{:6}` writes a `usize`, followed by a tab.

The model treats `run` as a text transformer with no I/O. It has four modules:

- `NumberFormat`: the decimal digits of a number (`Digits`), and `Pad6`, the `{:6}` rendering that right-justifies them to width six with spaces and never truncates.
- `Lines`: `Join` (lines with a newline between each two) and `SplitLines`, which models how `BufRead::lines` cuts a text into lines.
- `Cat`: the output for one file.
  - The functions `Label`, `Rendered` and `FileText` specify it.
  - The method `CatFile` is the source's loop, a `while` loop that updates the counter `emptyLineCount` and the written text.
  - `CatFile` is proved equal to `FileText`. The reference numberings `NumberAll` (for `-n`) and `NumberNonblank` (for `-b`) are proved equal to `FileText` too.
- `Run`: the driver over the files.
  - Each file is given as an outcome: `OpenFailed(name, message)`, `ReadFailed(error)` or `Lines(lines)`.
  - The method `RunFiles` is the source's loop over the files. It is proved equal to `RunAll`, which yields the standard output text, the standard error lines and the returned status.

Where the code and the written description of catr disagree, the model follows the code:

- **`-n` and `-b` together.** The description calls the two flags mutually exclusive, with a usage error when both are given. The code declares no conflict, and the same tests that pass `-b -n` expect success. With both flags, `-b` wins (`BothFlagsAsNonblock`).
- **No newline after a file's last line.** The description says the output reproduces the input's newlines exactly. The code writes a newline only between two lines of a file. Each file's final newline is therefore lost (`PlainDropsFinalNewline`), and the last line of one file runs straight into the first line of the next (`FilesRunTogether`).
- **The trailing empty line under `-n`.** The description's example, `"Hello\nWorld\n\n"` under `-n`, ends with `3\t\n`. The code ends it with `3\t` and no newline (`TwoLinesAndBlankNumbered`).

## Model

| member | source | states |
|---|---|---|
| NumberFormat.Digits | src/lib.rs:32 | the decimal rendering of a line number: at least one character, every character a digit, and no leading zero unless the number is 0 |
| NumberFormat.ValueOfDigits | src/lib.rs:32 | reading the digits back as a decimal number gives the number: the rendering loses nothing |
| NumberFormat.DigitsLength | src/lib.rs:32 | a number takes at most k digits exactly when it is below 10^k |
| NumberFormat.PadToSpaces | src/lib.rs:32 | right-justifying to a width puts exactly the missing number of spaces in front of the text, and nothing when it is already that wide |
| NumberFormat.Pad6Shape | src/lib.rs:32 | `{:6}` of n is max(6, digits of n) characters wide, ends with the digits of n and holds only spaces before them |
| NumberFormat.Pad6Width | src/lib.rs:32 | a number fills exactly six columns if and only if it is below 1000000; larger numbers are written in full, not truncated |
| NumberFormat.Pad6RoundTrip | src/lib.rs:32 | removing the leading spaces of `{:6}` of n gives the digits of n back, and their value is n |
| Lines.JoinSnoc | src/lib.rs:35-37 | joining one more line adds a newline and then that line |
| Lines.JoinedPrefixStep | src/lib.rs:34-37 | after line k of a file is written, the output has grown by that line, plus a newline unless it was the last line |
| Lines.JoinNewlines | src/lib.rs:35-37 | joining k >= 1 newline-free lines adds exactly k - 1 newlines; joining none gives the empty text |
| Lines.SplitLines | src/lib.rs:26 | the lines `BufRead::lines` yields hold no newline, and there are none exactly when the text is empty |
| Lines.SplitLinesFirst | src/lib.rs:26 | a line ends at its first newline, which is dropped together with a carriage return just before it |
| Lines.SplitLinesCRLF | src/lib.rs:26 | a line ended by `\r\n` comes out without either character |
| Lines.SplitLinesLast | src/lib.rs:26 | a final line with no newline after it is still yielded, unchanged |
| Lines.SplitLinesFinalNewline | src/lib.rs:26 | a newline at the very end of the text yields no empty last line |
| Lines.SplitThenJoin | src/lib.rs:26 | for text without carriage returns, joining the split lines gives the text back except for a final newline |
| Lines.JoinThenSplit | src/lib.rs:26 | newline-free lines whose last one is not empty come back unchanged when they are joined and then split |
| Cat.EmptyCountAppend | src/lib.rs:29-30 | the count of empty lines of two stretches of lines is the sum of their counts |
| Cat.CountsPartition | src/lib.rs:29-30 | each line is either empty or not: the empty count plus the non-empty count is the number of lines |
| Cat.LineNumber | src/lib.rs:27-32 | the number printed for the line at index i, i + 1 - empty_line_count, lies between 1 and i + 1, so the `usize` subtraction cannot underflow |
| Cat.LineNumberCountsNonblank | src/lib.rs:29-32 | under `-b` the printed number is the count of non-empty lines before the line, plus one; without `-b` it is i + 1 |
| Cat.Rendered | src/lib.rs:28-34 | there is one printed line for each line of the file |
| Cat.CatFile | src/lib.rs:27-38 | the loop over the lines writes exactly `FileText`: the lines, each after its label, with newlines between them; the loop invariant ties `empty_line_count` to the empty lines seen under `-b` and keeps it 0 otherwise |
| Cat.CatLine | src/lib.rs:29-37 | one pass of the loop extends the output by the line's label, the line and a newline unless it is the last line, and counts the line if it is empty under `-b` |
| Cat.CounterStep | src/lib.rs:29-30 | the counter never exceeds the lines seen, and it grows by one exactly for an empty line under `-b` |
| Cat.LabelStep | src/lib.rs:29-33 | what the loop prints before a line, computed from its counter, is that line's label |
| Cat.PlainIsJoin | src/lib.rs:28-38 | with neither flag a file prints as its lines joined by newlines, with none after the last |
| Cat.NumberAllAt | src/lib.rs:31-32 | the reference numbering for `-n` puts `{:6}` of j + i and a tab before the i-th line |
| Cat.NumberNonblankAt | src/lib.rs:29-32 | the reference numbering for `-b` leaves empty lines bare and puts `{:6}` of j plus the non-empty lines before it, then a tab, before each non-empty line |
| Cat.NumberLinesAt | src/lib.rs:31-32 | under `-n` alone the line at index i prints after `{:6}` of i + 1 and a tab |
| Cat.NumberLinesIsNumberAll | src/lib.rs:28-38 | under `-n` alone the file's text is every line numbered from 1 |
| Cat.NonblockAt | src/lib.rs:29-32 | under `-b`, with or without `-n`, an empty line prints bare and a non-empty line prints after its number and a tab |
| Cat.NonblockNumberIsRank | src/lib.rs:29-32 | under `-b` a non-empty line shows the count of non-empty lines up to and including it, so the j-th non-empty line shows j |
| Cat.NonblankCountSnoc | src/lib.rs:29-30 | one more line adds one to the non-empty count exactly when it is not empty |
| Cat.NumberNonblockIsNumberNonblank | src/lib.rs:28-38 | under `-b`, with or without `-n`, the file's text is the non-empty lines numbered from 1, with empty lines left bare |
| Cat.BothFlagsAsNonblock | src/lib.rs:29-31 | `-n` together with `-b` prints the same as `-b` alone |
| Cat.LabelHasNoNewline | src/lib.rs:32 | a label never contains a newline |
| Cat.FileNewlines | src/lib.rs:28-37 | a file of k >= 1 lines gets exactly k - 1 newlines, and a file of no lines prints nothing, under every flag setting |
| Cat.PlainDropsFinalNewline | src/lib.rs:26-38 | with no flags, a text read through `BufRead::lines` prints back unchanged except that a final newline is dropped |
| Cat.TwoLinesAndBlankNumbered | src/lib.rs:26-38 | `a\nb\n\n` under `-n` prints three numbered lines, the third one empty, with no newline after it |
| Cat.TwoLinesAndBlankNonblock | src/lib.rs:26-38 | `a\nb\n\n` under `-b` prints two numbered lines and an empty third line, unnumbered |
| Cat.SmallPad6 | src/lib.rs:32 | `{:6}` of 1, 2 and 3 is five spaces and the digit |
| Run.RunFiles | src/lib.rs:22-42 | the loop over the files produces exactly the standard output, standard error and status of `RunAll` |
| Run.ErrorEndsRun | src/lib.rs:26 | once a read error has ended the run, the later files change nothing |
| Run.ConcatSnoc | src/lib.rs:22-38 | one more file appends its text to the standard output if it was read, and nothing otherwise |
| Run.DiagnosticsSnoc | src/lib.rs:24 | one more file appends its diagnostic to the standard error if it failed to open, and nothing otherwise |
| Run.RunWithoutReadError | src/lib.rs:22-42 | without read errors, every file is processed in argument order, the standard output is the files' texts run together, the standard error has `{name}: {error}` for each file that failed to open, and the run returns `Ok` |
| Run.FirstReadErrorEndsRun | src/lib.rs:26 | the first read error ends the run at once: the output of the earlier files stays, nothing of that file or of later files is written, and that error is returned |
| Run.SkipsBadFile | src/lib.rs:23-24 | a file that cannot be opened writes only `{name}: {error}` to standard error, and the run still succeeds |
| Run.FilesRunTogether | src/lib.rs:22-38 | with no flags, a one-line file followed by another prints both lines on one line of output |

The test suite's expectations for a missing file are covered by `Run.SkipsBadFile` (tests/cli.rs:42-50). The successful runs with `-b -n` are covered by `Cat.BothFlagsAsNonblock` and `Run.RunWithoutReadError` (tests/cli.rs:89-93). The empty input under every flag setting is covered by `Cat.FileNewlines` (tests/cli.rs:97-102).

## Left out

- The command line (`Args`, src/lib.rs:5-19). Clap derives parsing, `--help`, `--version` and the default file list `-` from a macro whose code is not shown. The flags are the `Flags` value, and the file names arrive inside each `FileOutcome`.
- `open` (src/lib.rs:45-50). Opening a file or standard input, and the operating system's error text, arrive as the `FileOutcome` of each file. The message in `OpenFailed` is an arbitrary string.
- UTF-8 decoding and I/O failures inside `lines()`. They appear only as `ReadFailed(error)`. `SplitLines` models the line cutting of text that was read successfully.
- The newline that `eprintln!` adds after each diagnostic. The standard error is modelled as a sequence of lines.
- Output buffering and interleaving of standard output with standard error. Standard output is one string and standard error a separate sequence, so their relative order in time is not modelled.
- How `main` turns an `Err` into an exit code. `main` is not part of this model.
- `usize` overflow of `i + 1`. Dafny integers are unbounded, and a file of 2^64 lines is out of reach in practice.
- Lines.SplitLines: stated only for the lines of a text. `BufRead::lines` reads lazily from a stream, and that laziness is not modelled.
- Lines.SplitThenJoin: requires a text without carriage returns, because `\r\n` endings come back as bare newlines. `Lines.SplitLinesCRLF` states that case on its own.
- Cat.PlainDropsFinalNewline: requires a text without carriage returns, for the same reason.
