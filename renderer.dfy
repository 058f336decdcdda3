/**
 * `MermaidRenderer`: the checks that run before the Mermaid CLI is started,
 * the command line it is given, the mapping of its exit status and error
 * output to application errors, and the removal of the temporary input file.
 * `shutil.which`, the temporary-file library and the child process are
 * oracles; the file system is a `Host` object holding the set of existing
 * paths and, as ghost state, the command lines started so far.
 */
module MermaidRender {
  import opened Wrappers
  import opened PyText
  import opened Errors

  const NotInstalledMessage := "Mermaid CLI is not installed. Please install @mermaid-js/mermaid-cli."
  const FormatMessage := "Unsupported output format. Use 'png' or 'svg'."
  const EmptyCodeMessage := "Mermaid code is empty."
  const NoOutputMessage := "Mermaid CLI did not generate an output file."
  const SyntaxPrefix := "Syntax error in Mermaid code: "
  const FailedPrefix := "Mermaid CLI failed: "
  const InputSuffix := ".mmd"

  /** What `NamedTemporaryFile(mode="w", suffix=".mmd", delete=False)` and the write do. */
  datatype TempFile =
    | Created(path: string, writeError: Option<Raised>)  // the file exists; the write may have raised
    | CreateFailed(error: Raised)

  /** The child's error output, as `stderr.decode()` sees it. */
  datatype Stderr = Decoded(text: string) | Undecodable(message: string)

  /** What starting and awaiting the Mermaid CLI does. */
  datatype Process =
    | Exited(code: int, stderr: Stderr, writesOutput: bool)
    | SpawnFailed(message: string)

  /** A path that `if not path` lets through: present and non-empty. */
  predicate Present(p: Option<string>) {
    p.Some? && p.value != ""
  }

  /** The format `render` uses when its `output_format` argument is omitted. */
  const DefaultFormat := "png"

  /** The `output_format` argument as `render` reads it: the value passed, or the default. */
  function FormatArg(format: Option<string>): string {
    match format
    case Some(f) => f
    case None => DefaultFormat
  }

  predicate SupportedFormat(format: string) {
    format == "png" || format == "svg"
  }

  /** `input_path.replace(".mmd", f".{format}")`. */
  function OutputPath(input: string, format: string): string {
    ReplaceAll(input, InputSuffix, "." + format)
  }

  /** The argument vector given to the CLI. */
  function Command(mmdc: string, input: string, output: string, format: string): seq<string> {
    [mmdc, "-i", input, "-o", output] + (if format == "png" then ["-b", "transparent"] else [])
  }

  /** What `render` returns or raises, the cached binary path, the files and the command started. */
  datatype Outcome = Outcome(
    result: Result<string, Raised>,
    mmdcPath: Option<string>,
    files: set<string>,
    command: Option<seq<string>>)

  /** The body of the `try` block: start the CLI and judge its exit. */
  function TryBlock(proc: Process, output: string, files: set<string>): (Result<string, Raised>, set<string>) {
    match proc
    case SpawnFailed(m) => (Err(App(RenderFailed(m))), files)
    case Exited(code, stderr, writes) =>
      var after := if writes then files + {output} else files;
      if code != 0 then
        match stderr
        case Undecodable(m) => (Err(App(RenderFailed(m))), after)
        case Decoded(text) =>
          var msg := Strip(text);
          if Contains(msg, "Syntax error") then (Err(App(NewMermaidSyntaxError(SyntaxPrefix + msg))), after)
          else (Err(App(RenderFailed(FailedPrefix + msg))), after)
      else if output in after then (Ok(output), after)
      else (Err(App(RenderFailed(NoOutputMessage))), after)
  }

  /**
   * `render(code, format)` from a renderer whose cached path is `mmdc`, on a
   * host whose existing paths are `files`; `probe` is what `shutil.which`
   * answers if it is asked again.
   */
  function RenderSpec(mmdc: Option<string>, probe: Option<string>, files: set<string>,
                      code: string, format: string, temp: TempFile, proc: Process): Outcome
  {
    var path := if Present(mmdc) then mmdc else probe;
    if !Present(path) then Outcome(Err(App(RenderFailed(NotInstalledMessage))), path, files, None)
    else if !SupportedFormat(format) then Outcome(Err(Builtin("ValueError", FormatMessage)), path, files, None)
    else if Strip(code) == [] then Outcome(Err(App(NewMermaidSyntaxError(EmptyCodeMessage))), path, files, None)
    else
      match temp
      case CreateFailed(err) => Outcome(Err(err), path, files, None)
      case Created(input, writeError) =>
        if writeError.Some? then Outcome(Err(writeError.value), path, files + {input}, None)
        else
          var output := OutputPath(input, format);
          var (res, after) := TryBlock(proc, output, files + {input});
          Outcome(res, path, after - {input}, Some(Command(path.value, input, output, format)))
  }

  /** The file system seen by the renderer. */
  class Host {
    var files: set<string>
    ghost var commands: seq<seq<string>>

    constructor(existing: set<string>)
      ensures files == existing && commands == []
    {
      files := existing;
      commands := [];
    }

    /** `os.path.exists(path)`. */
    predicate Exists(path: string)
      reads this
    {
      path in files
    }

    /** A file now exists at `path`. */
    method Add(path: string)
      modifies this
      ensures files == old(files) + {path} && commands == old(commands)
    {
      files := files + {path};
    }

    /** `os.remove(path)`. */
    method Remove(path: string)
      modifies this
      ensures files == old(files) - {path} && commands == old(commands)
    {
      files := files - {path};
    }

    /**
     * `create_subprocess_exec(*cmd)` then `communicate()`: the exit status and
     * error output, or the message of the exception raised on start.
     */
    method Launch(cmd: seq<string>, proc: Process, output: string) returns (r: Result<(int, Stderr), string>)
      modifies this
      ensures commands == old(commands) + [cmd]
      ensures proc.SpawnFailed? ==> r == Err(proc.message) && files == old(files)
      ensures proc.Exited? ==>
        && r == Ok((proc.code, proc.stderr))
        && files == (if proc.writesOutput then old(files) + {output} else old(files))
    {
      commands := commands + [cmd];
      match proc
      case SpawnFailed(m) =>
        r := Err(m);
      case Exited(code, stderr, writes) =>
        if writes {
          files := files + {output};
        }
        r := Ok((code, stderr));
    }
  }

  class MermaidRenderer {
    var mmdcPath: Option<string>

    /** `MermaidRenderer()`: caches what `shutil.which("mmdc")` answered. */
    constructor(probe: Option<string>)
      ensures mmdcPath == probe
    {
      mmdcPath := probe;
    }

    /** `render(mermaid_code, output_format)`; `format` is `None` when the argument is omitted. */
    method Render(host: Host, code: string, format: Option<string>, probe: Option<string>,
                  temp: TempFile, proc: Process) returns (r: Result<string, Raised>)
      modifies this, host
      ensures var o := RenderSpec(old(mmdcPath), probe, old(host.files), code, FormatArg(format), temp, proc);
        && r == o.result
        && mmdcPath == o.mmdcPath
        && host.files == o.files
        && host.commands == old(host.commands) + (if o.command.Some? then [o.command.value] else [])
    {
      ghost var o := RenderSpec(mmdcPath, probe, host.files, code, FormatArg(format), temp, proc);
      ghost var files0 := host.files;
      if !Present(mmdcPath) {
        mmdcPath := probe;
        if !Present(mmdcPath) {
          return Err(App(RenderFailed(NotInstalledMessage)));
        }
      }
      var fmt := FormatArg(format);
      if !SupportedFormat(fmt) {
        return Err(Builtin("ValueError", FormatMessage));
      }
      if Strip(code) == [] {
        return Err(App(NewMermaidSyntaxError(EmptyCodeMessage)));
      }
      match temp
      case CreateFailed(err) =>
        return Err(err);
      case Created(input, writeError) =>
        host.Add(input);
        if writeError.Some? {
          return Err(writeError.value);
        }
        var output := OutputPath(input, fmt);
        var cmd := [mmdcPath.value, "-i", input, "-o", output];
        if fmt == "png" {
          cmd := cmd + ["-b", "transparent"];
        }
        assert cmd == Command(mmdcPath.value, input, output, fmt);
        assert o.command == Some(cmd);
        r := Run(host, cmd, proc, output);
        assert (r, host.files) == TryBlock(proc, output, files0 + {input});
        if host.Exists(input) {
          host.Remove(input);
        }
    }

    /** The `try` block with its `except` clauses. */
    static method Run(host: Host, cmd: seq<string>, proc: Process, output: string) returns (r: Result<string, Raised>)
      modifies host
      ensures (r, host.files) == TryBlock(proc, output, old(host.files))
      ensures host.commands == old(host.commands) + [cmd]
    {
      var launched := host.Launch(cmd, proc, output);
      match launched
      case Err(m) =>
        r := Err(App(RenderFailed(m)));
      case Ok((code, stderr)) =>
        if code != 0 {
          match stderr
          case Undecodable(m) =>
            r := Err(App(RenderFailed(m)));
          case Decoded(text) =>
            var msg := Strip(text);
            if Contains(msg, "Syntax error") {
              r := Err(App(NewMermaidSyntaxError(SyntaxPrefix + msg)));
            } else {
              r := Err(App(RenderFailed(FailedPrefix + msg)));
            }
        } else if !host.Exists(output) {
          r := Err(App(RenderFailed(NoOutputMessage)));
        } else {
          r := Ok(output);
        }
    }
  }

  /** `validate_syntax(code)`. */
  function ValidateSyntax(code: string): (ok: bool)
    ensures ok <==> exists i | 0 <= i < |code| :: !IsSpace(code[i])
  {
    |Strip(code)| > 0
  }

  // --- properties ---

  /** Without the binary, even after the re-probe, nothing else is checked and no file appears. */
  lemma NotInstalledFirst(mmdc: Option<string>, probe: Option<string>, files: set<string>,
                          code: string, format: string, temp: TempFile, proc: Process)
    requires !Present(mmdc) && !Present(probe)
    ensures var o := RenderSpec(mmdc, probe, files, code, format, temp, proc);
      && o.result == Err(App(RenderFailed(NotInstalledMessage)))
      && o.result.error.error.Status() == 500
      && o.mmdcPath == probe && o.files == files && o.command.None?
  {
  }

  /** A cached path is kept; a missing one is replaced by the re-probe, on every path through `render`. */
  lemma ProbeCached(mmdc: Option<string>, probe: Option<string>, files: set<string>,
                    code: string, format: string, temp: TempFile, proc: Process)
    ensures var o := RenderSpec(mmdc, probe, files, code, format, temp, proc);
      && (Present(mmdc) ==> o.mmdcPath == mmdc)
      && (!Present(mmdc) ==> o.mmdcPath == probe)
  {
  }

  /** With the binary found, an unsupported format raises `ValueError` before the code is looked at. */
  lemma FormatChecked(mmdc: Option<string>, probe: Option<string>, files: set<string>,
                      code: string, format: string, temp: TempFile, proc: Process)
    requires Present(mmdc) || Present(probe)
    requires format != "png" && format != "svg"
    ensures var o := RenderSpec(mmdc, probe, files, code, format, temp, proc);
      o.result == Err(Builtin("ValueError", FormatMessage)) && o.files == files && o.command.None?
  {
  }

  /** Blank code raises `MermaidSyntaxError` before any file or process exists. */
  lemma BlankCodeRejected(mmdc: Option<string>, probe: Option<string>, files: set<string>,
                          code: string, format: string, temp: TempFile, proc: Process)
    requires Present(mmdc) || Present(probe)
    requires SupportedFormat(format)
    requires forall i | 0 <= i < |code| :: IsSpace(code[i])
    ensures var o := RenderSpec(mmdc, probe, files, code, format, temp, proc);
      && o.result == Err(App(MermaidSyntaxError(EmptyCodeMessage, 500)))
      && o.files == files && o.command.None?
  {
  }

  /** The temporary-file library raises only built-in exceptions, never an application error. */
  predicate LibraryErrors(temp: TempFile) {
    match temp
    case CreateFailed(err) => err.Builtin?
    case Created(_, writeError) => writeError.None? || writeError.value.Builtin?
  }

  /**
   * Once the binary is found and the format is supported, `validate_syntax`
   * fails exactly when `render` raises the empty-code `MermaidSyntaxError`,
   * and then no file appears and nothing is started.
   */
  lemma ValidateMatchesRender(mmdc: Option<string>, probe: Option<string>, files: set<string>,
                              code: string, format: string, temp: TempFile, proc: Process)
    requires Present(mmdc) || Present(probe)
    requires SupportedFormat(format)
    requires LibraryErrors(temp)
    ensures var o := RenderSpec(mmdc, probe, files, code, format, temp, proc);
      && (!ValidateSyntax(code) <==> o.result == Err(App(NewMermaidSyntaxError(EmptyCodeMessage))))
      && (!ValidateSyntax(code) ==> o.files == files && o.command.None?)
  {
    var o := RenderSpec(mmdc, probe, files, code, format, temp, proc);
    if ValidateSyntax(code) && temp.Created? && temp.writeError.None? {
      var output := OutputPath(temp.path, format);
      var (res, after) := TryBlock(proc, output, files + {temp.path});
      assert o.result == res;
      if res.Err? && res.error.App? && res.error.error.MermaidSyntaxError? {
        assert |res.error.error.message| > |EmptyCodeMessage|;
      }
    }
  }

  /** Called without a format, `render` asks the CLI for png on a transparent background. */
  lemma DefaultFormatTransparent(mmdc: Option<string>, probe: Option<string>, files: set<string>,
                                 code: string, temp: TempFile, proc: Process)
    ensures var o := RenderSpec(mmdc, probe, files, code, FormatArg(None), temp, proc);
      o.command.Some? ==> |o.command.value| == 7 && o.command.value[5..] == ["-b", "transparent"]
  {
    CommandShape(mmdc, probe, files, code, FormatArg(None), temp, proc);
  }

  /** The CLI is started once at most, with `-i input -o output`, and `-b transparent` exactly for png. */
  lemma CommandShape(mmdc: Option<string>, probe: Option<string>, files: set<string>,
                     code: string, format: string, temp: TempFile, proc: Process)
    ensures var o := RenderSpec(mmdc, probe, files, code, format, temp, proc);
      o.command.Some? ==>
        && temp.Created? && temp.writeError.None? && SupportedFormat(format)
        && var cmd := o.command.value;
        && cmd[..5] == [o.mmdcPath.value, "-i", temp.path, "-o", OutputPath(temp.path, format)]
        && (format == "png" <==> |cmd| == 7)
        && (format == "png" ==> cmd[5..] == ["-b", "transparent"])
        && (format == "svg" ==> |cmd| == 5)
        && o.mmdcPath.value != ""
  {
  }

  /** `.mmd` has no border, so replacing it never consumes part of the final suffix. */
  lemma InputSuffixBorderless()
    ensures Borderless(InputSuffix)
  {
    forall k | 0 < k < |InputSuffix| ensures InputSuffix[..k] != InputSuffix[|InputSuffix| - k..] {
      assert InputSuffix[..k][0] == '.';
    }
  }

  /** For a temporary path ending in `.mmd`, the output path ends in `.<format>` and differs from the input. */
  lemma OutputPathShape(input: string, format: string)
    requires EndsWith(input, InputSuffix) && |format| == 3
    requires format != "mmd"
    ensures EndsWith(OutputPath(input, format), "." + format)
    ensures OutputPath(input, format) != input
  {
    InputSuffixBorderless();
    ReplaceAllSuffix(input, InputSuffix, "." + format);
    assert OccursAt(input, InputSuffix, |input| - 4);
    assert ("." + format)[1..] == format;
    ReplaceAllChanges(input, InputSuffix, "." + format);
  }

  /**
   * A replacement that starts with '.' and has no other '.' cannot begin a
   * character other than '.': such a first character was copied from the input.
   */
  lemma ReplaceHead(t: string, rep: string)
    requires |rep| == |InputSuffix| && rep[0] == '.'
    ensures var r := ReplaceAll(t, InputSuffix, rep);
      |r| > 0 && r[0] != '.' ==> |t| > 0 && t[0] == r[0] && r[1..] == ReplaceAll(t[1..], InputSuffix, rep)
  {
  }

  /** An output that starts with "mmd" comes from an input that starts with "mmd". */
  lemma ReplaceKeepsMmd(t: string, rep: string)
    requires |rep| == |InputSuffix| && rep[0] == '.'
    ensures var r := ReplaceAll(t, InputSuffix, rep);
      |r| >= 3 && r[..3] == "mmd" ==> |t| >= 3 && t[..3] == "mmd"
  {
    var r := ReplaceAll(t, InputSuffix, rep);
    if |t| >= 3 && |r| >= 3 && r[..3] == "mmd" {
      ReplaceHead(t, rep);
      var r1 := ReplaceAll(t[1..], InputSuffix, rep);
      assert r1 == r[1..] && r1[0] == 'm';
      ReplaceHead(t[1..], rep);
      var r2 := ReplaceAll(t[2..], InputSuffix, rep);
      assert t[1..][1..] == t[2..];
      assert r2 == r[2..] && r2[0] == 'd';
      ReplaceHead(t[2..], rep);
      assert t[..3] == [t[0], t[1..][0], t[2..][0]];
    }
  }

  /** A replacement block in front of a text without ".mmd" brings none in. */
  lemma NoSuffixAfterRep(rep: string, tail: string)
    requires |rep| == |InputSuffix| && rep[0] == '.' && rep != InputSuffix
    requires forall k | 1 <= k < |rep| :: rep[k] != '.'
    requires !Contains(tail, InputSuffix)
    ensures !Contains(rep + tail, InputSuffix)
  {
    var r := rep + tail;
    forall i | 0 <= i <= |r| - |InputSuffix| ensures !OccursAt(r, InputSuffix, i) {
      if i == 0 {
        assert r[i..i + 4] == rep;
      } else if i < 4 {
        assert r[i..i + 4][0] == rep[i] != InputSuffix[0];
      } else {
        assert r[i..i + 4] == tail[i - 4..i];
        assert !OccursAt(tail, InputSuffix, i - 4);
      }
    }
  }

  /** A copied character in front of a replaced text brings in no ".mmd" unless the input had one there. */
  lemma NoSuffixAfterCopy(c: char, t: string, rep: string)
    requires |rep| == |InputSuffix| && rep[0] == '.'
    requires !Contains(ReplaceAll(t, InputSuffix, rep), InputSuffix)
    requires !StartsWith([c] + t, InputSuffix)
    ensures !Contains([c] + ReplaceAll(t, InputSuffix, rep), InputSuffix)
  {
    var tail := ReplaceAll(t, InputSuffix, rep);
    var r := [c] + tail;
    ReplaceKeepsMmd(t, rep);
    forall i | 0 <= i <= |r| - |InputSuffix| ensures !OccursAt(r, InputSuffix, i) {
      if i == 0 {
        if c != '.' {
          assert r[i..i + 4][0] == c;
        } else {
          if |t| >= 3 {
            assert ([c] + t)[..4] == [c] + t[..3];
            assert t[..3] != "mmd";
          }
          assert tail[..3] != "mmd";
          assert r[i..i + 4][1..] == tail[..3];
          assert InputSuffix[1..] == "mmd";
        }
      } else {
        assert r[i..i + 4] == tail[i - 1..i + 3];
        assert !OccursAt(tail, InputSuffix, i - 1);
      }
    }
  }

  /**
   * Replacing every ".mmd" by a different four-character extension with no
   * further '.' leaves no ".mmd" behind.
   */
  lemma {:induction false} ReplaceLeavesNoSuffix(s: string, rep: string)
    requires |rep| == |InputSuffix| && rep[0] == '.' && rep != InputSuffix
    requires forall k | 1 <= k < |rep| :: rep[k] != '.'
    ensures !Contains(ReplaceAll(s, InputSuffix, rep), InputSuffix)
    decreases |s|
  {
    if |s| < |InputSuffix| {
      assert ReplaceAll(s, InputSuffix, rep) == s;
    } else if s[..|InputSuffix|] == InputSuffix {
      ReplaceLeavesNoSuffix(s[|InputSuffix|..], rep);
      NoSuffixAfterRep(rep, ReplaceAll(s[|InputSuffix|..], InputSuffix, rep));
    } else {
      ReplaceLeavesNoSuffix(s[1..], rep);
      assert s == [s[0]] + s[1..];
      NoSuffixAfterCopy(s[0], s[1..], rep);
    }
  }

  /** For a supported format, the output path contains no ".mmd": `replace` replaced every occurrence. */
  lemma OutputPathReplacesAll(input: string, format: string)
    requires SupportedFormat(format)
    ensures !Contains(OutputPath(input, format), InputSuffix)
  {
    assert ("." + format)[1..] == format;
    ReplaceLeavesNoSuffix(input, "." + format);
  }

  /**
   * Once the write has succeeded, the input file is gone whatever the CLI did;
   * a success returns the output path, which exists afterwards, and an output
   * file present after the CLI ran is never removed.
   */
  lemma Cleanup(mmdc: Option<string>, probe: Option<string>, files: set<string>,
                code: string, format: string, input: string, proc: Process)
    requires EndsWith(input, InputSuffix)
    ensures var o := RenderSpec(mmdc, probe, files, code, format, Created(input, None), proc);
      && (o.command.Some? ==> input !in o.files)
      && (o.result.Ok? ==> o.result.value == OutputPath(input, format) && o.result.value in o.files)
      && ((o.command.Some? && (OutputPath(input, format) in files || (proc.Exited? && proc.writesOutput)))
            ==> OutputPath(input, format) in o.files)
  {
    var o := RenderSpec(mmdc, probe, files, code, format, Created(input, None), proc);
    if o.command.Some? {
      OutputPathShape(input, format);
    }
  }

  /**
   * A failed write leaves the temporary file behind: the cleanup belongs to the
   * later `try`. This holds whether the binary was cached at construction or
   * found by the re-probe.
   */
  lemma WriteFailureLeavesFile(mmdc: Option<string>, probe: Option<string>, files: set<string>,
                               code: string, format: string, input: string, err: Raised, proc: Process)
    requires (Present(mmdc) || Present(probe)) && SupportedFormat(format) && Strip(code) != []
    ensures var o := RenderSpec(mmdc, probe, files, code, format, Created(input, Some(err)), proc);
      o.result == Err(err) && input in o.files && o.command.None?
  {
  }

  /**
   * Inside the `try` block every failure is `MermaidSyntaxError` or
   * `RenderFailed`, both with status 500; the syntax error arises only from a
   * non-zero exit whose stripped error output contains "Syntax error", and
   * success needs exit status 0 and an existing output file.
   */
  lemma TryBlockErrors(proc: Process, output: string, files: set<string>)
    ensures var (r, after) := TryBlock(proc, output, files);
      && (r.Err? ==> r.error.App? && (r.error.error.RenderFailed? || r.error.error.MermaidSyntaxError?)
                     && r.error.error.Status() == 500)
      && (r.Err? && r.error.error.MermaidSyntaxError? <==>
            proc.Exited? && proc.code != 0 && proc.stderr.Decoded? && Contains(Strip(proc.stderr.text), "Syntax error"))
      && (r.Ok? <==> proc.Exited? && proc.code == 0 && output in after)
      && (r.Ok? ==> r.value == output)
      && files <= after
  {
  }
}
