/** The driver of `run`: the files in argument order, each one either failing
    to open, failing while its lines are read, or yielding its lines. */
module Run {
  import opened Lines
  import opened Cat

  /** What opening and reading one command-line input gives. The opening
      itself, standard input for "-" and the operating system's error
      messages are not part of this model: they arrive here as values. */
  datatype FileOutcome =
    | OpenFailed(name: string, message: string)
    | ReadFailed(error: string)
    | Lines(lines: seq<string>)

  datatype Status = Ok | Err(error: string)

  /** Everything an invocation produces: the text on standard output, the
      lines on standard error (each written with a newline after it) and the
      value `run` returns. */
  datatype Outcome = Outcome(stdout: string, stderr: seq<string>, status: Status)

  /** The diagnostic written for a file that failed to open: `{file}: {e}`. */
  function Diagnostic(name: string, message: string): string {
    name + ": " + message
  }

  /** One pass of the loop over the files, after the earlier files ran
      without a read error. */
  function Step(o: Outcome, f: FileOutcome, flags: Flags): Outcome
    requires o.status.Ok?
  {
    match f
    case OpenFailed(name, message) => Outcome(o.stdout, o.stderr + [Diagnostic(name, message)], Ok)
    case ReadFailed(error) => Outcome(o.stdout, o.stderr, Err(error))
    case Lines(lines) => Outcome(o.stdout + FileText(lines, flags), o.stderr, Ok)
  }

  /** What `run` produces for these files: a read error ends the loop at once
      and is returned; otherwise every file is processed and `Ok` returned. */
  function RunAll(files: seq<FileOutcome>, flags: Flags): Outcome {
    if files == [] then Outcome("", [], Ok)
    else
      var o := RunAll(files[..|files| - 1], flags);
      if o.status.Err? then o else Step(o, files[|files| - 1], flags)
  }

  /** The loop of `run` over the files, accumulating what it prints. */
  method RunFiles(files: seq<FileOutcome>, flags: Flags)
    returns (stdout: string, stderr: seq<string>, status: Status)
    ensures Outcome(stdout, stderr, status) == RunAll(files, flags)
  {
    stdout, stderr, status := "", [], Ok;
    var i := 0;
    while i < |files|
      invariant i <= |files|
      invariant Outcome(stdout, stderr, Ok) == RunAll(files[..i], flags)
    {
      assert files[..i + 1][..i] == files[..i];
      match files[i] {
        case OpenFailed(name, message) =>
          stderr := stderr + [name + ": " + message];
        case ReadFailed(error) =>
          status := Err(error);
          ErrorEndsRun(files, i + 1, flags);
          assert files[..|files|] == files;
          return;
        case Lines(lines) =>
          var text := CatFile(lines, flags);
          stdout := stdout + text;
      }
      i := i + 1;
    }
    assert files[..i] == files;
  }

  /** Once a read error has ended the run, later files change nothing. */
  lemma {:induction false} ErrorEndsRun(files: seq<FileOutcome>, k: nat, flags: Flags)
    requires k <= |files|
    requires RunAll(files[..k], flags).status.Err?
    ensures RunAll(files, flags) == RunAll(files[..k], flags)
    decreases |files| - k
  {
    if k < |files| {
      assert files[..k + 1][..k] == files[..k];
      ErrorEndsRun(files, k + 1, flags);
    } else {
      assert files[..k] == files;
    }
  }

  /** What one file contributes to the standard output when the run gets
      to it: its text if it was read, nothing otherwise. */
  function Written(f: FileOutcome, flags: Flags): string {
    if f.Lines? then FileText(f.lines, flags) else ""
  }

  /** Reference view of the standard output: the texts of the files that
      were read, in order, run together. */
  function Concat(files: seq<FileOutcome>, flags: Flags): string {
    if files == [] then "" else Written(files[0], flags) + Concat(files[1..], flags)
  }

  /** Reference view of the standard error: one diagnostic per file that
      failed to open, in order. */
  function Diagnostics(files: seq<FileOutcome>): seq<string> {
    if files == [] then []
    else
      var own := if files[0].OpenFailed? then [Diagnostic(files[0].name, files[0].message)] else [];
      own + Diagnostics(files[1..])
  }

  predicate NoReadError(files: seq<FileOutcome>) {
    forall j :: 0 <= j < |files| ==> !files[j].ReadFailed?
  }

  lemma {:induction false} ConcatSnoc(files: seq<FileOutcome>, f: FileOutcome, flags: Flags)
    ensures Concat(files + [f], flags) == Concat(files, flags) + Written(f, flags)
  {
    var g := files + [f];
    if files != [] {
      assert g[0] == files[0] && g[1..] == files[1..] + [f];
      ConcatSnoc(files[1..], f, flags);
      Assoc(Written(files[0], flags), Concat(files[1..], flags), Written(f, flags));
    } else {
      assert g[1..] == [];
      assert Concat(g, flags) == Written(f, flags) by {
        assert Written(f, flags) + "" == Written(f, flags);
      }
      assert "" + Written(f, flags) == Written(f, flags);
    }
  }

  lemma {:induction false} DiagnosticsSnoc(files: seq<FileOutcome>, f: FileOutcome)
    ensures Diagnostics(files + [f]) ==
      Diagnostics(files) + (if f.OpenFailed? then [Diagnostic(f.name, f.message)] else [])
  {
    if files != [] {
      assert (files + [f])[1..] == files[1..] + [f];
      DiagnosticsSnoc(files[1..], f);
    } else {
      assert files + [f] == [f];
    }
  }

  /** Without read errors every file is processed in argument order: the
      standard output is the files' texts run together, the standard error
      has one diagnostic per file that failed to open, and `run` returns
      `Ok`. */
  lemma {:induction false} RunWithoutReadError(files: seq<FileOutcome>, flags: Flags)
    requires NoReadError(files)
    ensures RunAll(files, flags) == Outcome(Concat(files, flags), Diagnostics(files), Ok)
  {
    if files != [] {
      var init, last := files[..|files| - 1], files[|files| - 1];
      assert files == init + [last];
      assert NoReadError(init) by {
        forall j | 0 <= j < |init| ensures !init[j].ReadFailed? {
          assert init[j] == files[j];
        }
      }
      RunWithoutReadError(init, flags);
      ConcatSnoc(init, last, flags);
      DiagnosticsSnoc(init, last);
    }
  }

  /** The first read error ends the run: what was written before it stays,
      nothing of that file or of a later one is written, and `run` returns
      that error. */
  lemma FirstReadErrorEndsRun(files: seq<FileOutcome>, k: nat, flags: Flags)
    requires k < |files| && files[k].ReadFailed?
    requires NoReadError(files[..k])
    ensures RunAll(files, flags) ==
      Outcome(Concat(files[..k], flags), Diagnostics(files[..k]), Err(files[k].error))
  {
    RunWithoutReadError(files[..k], flags);
    assert files[..k + 1][..k] == files[..k];
    ErrorEndsRun(files, k + 1, flags);
  }

  /** A file that cannot be opened writes only its diagnostic and the run
      still succeeds. */
  lemma SkipsBadFile(name: string, message: string, flags: Flags)
    ensures RunAll([OpenFailed(name, message)], flags) == Outcome("", [name + ": " + message], Ok)
  {
    assert [OpenFailed(name, message)][..0] == [];
  }

  /** Files are not separated: with no flags, a one-line file followed by
      another prints both lines on one line of output. */
  lemma FilesRunTogether(x: string, y: string)
    ensures RunAll([Lines([x]), Lines([y])], Flags(false, false)) == Outcome(x + y, [], Ok)
  {
    var files := [Lines([x]), Lines([y])];
    RunWithoutReadError(files, Flags(false, false));
    PlainIsJoin([x]);
    PlainIsJoin([y]);
    assert files[1..][1..] == [];
    assert Concat(files[1..], Flags(false, false)) == y;
    assert Concat(files, Flags(false, false)) == x + y;
    assert Diagnostics(files[1..]) == [];
  }
}
