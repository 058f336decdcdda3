/**
 * `Settings`: the defaults of the application settings and the
 * `assemble_cors_origins` validator, as a function of the raw value it is
 * handed.
 */
module Config {
  import opened Wrappers
  import opened PyText
  import opened JsonValue
  import opened Errors

  /**
   * `[i.strip() for i in v.split(",")]`: one origin per comma plus one, each a
   * string free of commas that neither starts nor ends with white space.
   */
  function CorsPieces(s: string): (items: seq<Json>)
    ensures |items| == Count(s, ',') + 1
    ensures forall k :: 0 <= k < |items| ==>
      && items[k].JStr? && ',' !in items[k].s
      && (items[k].s != [] ==> !IsSpace(items[k].s[0]) && !IsSpace(items[k].s[|items[k].s| - 1]))
  {
    SplitCount(s, ',');
    StrippedPiecesClean(s);
    var parts := Split(s, ',');
    seq(|parts|, k requires 0 <= k < |parts| => JStr(Strip(parts[k])))
  }

  /** Stripping a comma-free piece of `split(",")` leaves it comma-free. */
  lemma StrippedPiecesClean(s: string)
    ensures forall k :: 0 <= k < |Split(s, ',')| ==> ',' !in Strip(Split(s, ',')[k])
  {
    SplitPiecesClean(s, ',');
    var parts := Split(s, ',');
    forall k | 0 <= k < |parts| ensures ',' !in Strip(parts[k]) {
      var r := Strip(parts[k]);
      var lo: nat, hi: nat :| lo <= hi <= |parts[k]| && r == parts[k][lo..hi];
      assert forall c :: c in r ==> c in parts[k];
    }
  }

  /** `assemble_cors_origins(v)` (the "before" validator of `BACKEND_CORS_ORIGINS`). */
  function AssembleCorsOrigins(v: Json): (r: Result<Json, Raised>)
    ensures r.Ok? <==> v.JStr? || v.JArr?
    ensures v.JArr? || (v.JStr? && StartsWith(v.s, "[")) ==> r == Ok(v)
    ensures r.Err? ==> r.error == Builtin("ValueError", Str(v))
    ensures v.JStr? && !StartsWith(v.s, "[") ==> r.Ok? && r.value.JArr?
  {
    match v
    case JStr(s) =>
      if !StartsWith(s, "[") then Ok(JArr(CorsPieces(s))) else Ok(v)
    case JArr(_) => Ok(v)
    case _ => Err(Builtin("ValueError", Str(v)))
  }

  /**
   * A comma-separated string becomes one origin per comma-separated piece,
   * in order, each stripped of surrounding white space and free of commas; the
   * pieces before stripping join back into the string.
   */
  lemma CorsSplit(s: string)
    requires !StartsWith(s, "[")
    ensures var items := AssembleCorsOrigins(JStr(s)).value.items;
      && |items| == Count(s, ',') + 1
      && (forall k :: 0 <= k < |items| ==>
            && items[k] == JStr(Strip(Split(s, ',')[k]))
            && ',' !in items[k].s
            && (items[k].s != [] ==> !IsSpace(items[k].s[0]) && !IsSpace(items[k].s[|items[k].s| - 1])))
      && Join(Split(s, ','), ',') == s
  {
    SplitJoin(s, ',');
  }

  /** The empty string yields one empty origin. */
  lemma CorsEmptyString()
    ensures AssembleCorsOrigins(JStr("")) == Ok(JArr([JStr("")]))
  {
    assert Split("", ',') == [""];
    assert Strip("") == "";
    assert CorsPieces("") == [JStr("")];
  }

  /** `os.path.join(a, b)` on POSIX for a relative `b`. */
  function PathJoin(a: string, b: string): string {
    if StartsWith(b, "/") then b
    else if a == [] || EndsWith(a, "/") then a + b
    else a + "/" + b
  }

  /** The settings fields that the core reads, with their declared types. */
  datatype Settings = Settings(
    projectName: string,
    apiV1Str: string,
    corsOrigins: seq<string>,
    tempDir: string,
    logLevel: string,
    visionProvider: string,
    openaiApiKey: string,
    geminiApiKey: string,
    enablePreprocessing: bool,
    enableOcrFallback: bool,
    port: int)

  /** The defaults, for a process whose working directory is `cwd`. */
  function DefaultSettings(cwd: string): Settings {
    Settings(
      projectName := "Handwritten Diagram to Flowchart",
      apiV1Str := "/api/v1",
      corsOrigins := [],
      tempDir := PathJoin(cwd, "temp"),
      logLevel := "INFO",
      visionProvider := "stub",
      openaiApiKey := "",
      geminiApiKey := "",
      enablePreprocessing := true,
      enableOcrFallback := false,
      port := 8000)
  }

  /**
   * By default the stub provider is used, preprocessing is on, the OCR
   * fallback is off, no API key is set, and the temporary directory is `temp`
   * under the working directory.
   */
  lemma Defaults(cwd: string)
    requires StartsWith(cwd, "/")
    ensures var s := DefaultSettings(cwd);
      && s.visionProvider == "stub"
      && s.enablePreprocessing && !s.enableOcrFallback
      && s.geminiApiKey == "" && s.openaiApiKey == ""
      && s.port == 8000
      && StartsWith(s.tempDir, cwd) && EndsWith(s.tempDir, "/temp")
  {
    var t := DefaultSettings(cwd).tempDir;
    assert "temp"[..1][0] == 't';
    assert t[..|cwd|] == cwd;
    if EndsWith(cwd, "/") {
      assert t[|t| - 5..] == cwd[|cwd| - 1..] + "temp";
    } else {
      assert t == cwd + "/temp";
      assert t[|t| - 5..] == t[|cwd|..] == "/temp";
    }
  }
}
