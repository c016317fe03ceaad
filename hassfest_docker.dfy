/** script/hassfest/docker.py: finding the pinned `uv` version in
    requirements_test.txt, rendering the Dockerfile template, and the
    `validate` / `generate` steps of the `docker` plugin. File contents are
    parameters; the two regular expressions of the requirements checker are
    parameters too, since their text is not part of this model. */
module HassfestDocker {
  import opened Wrappers
  import opened PyText

  // ---------------------------------------------------------------------------
  // Requirement lines and the pinned uv version
  // ---------------------------------------------------------------------------

  /** The three groups `PACKAGE_REGEX` captures: package, operator, version
      (a missing version group is the empty string). */
  datatype Requirement = Requirement(pkg: string, sep: string, version: string)

  /** The two regular expressions, as parsers:
      `packageLine(l)` is `PACKAGE_REGEX.match(l).groups()` when it matches, and
      `versionRange(p)` is `PIP_VERSION_RANGE_SEPARATOR.match(p).group(2)` when it matches. */
  datatype RequirementPatterns = RequirementPatterns(
    packageLine: string -> Option<Requirement>,
    versionRange: string -> Option<string>)

  /** The two `RuntimeError`s looking for the uv version can raise. */
  datatype UvError =
    | UvNotPinned            // 'Requirement uv need to be pinned "uv==<version>".'
    | InvalidUvRequirement   // "Invalid uv requirement in requirements_test.txt"

  /** The first piece that the version-range pattern accepts, if any. */
  function FirstVersionPart(parts: seq<string>, versionRange: string -> Option<string>): (r: Option<string>)
    ensures r.None? <==> forall j :: 0 <= j < |parts| ==> versionRange(parts[j]).None?
    ensures r.Some? ==> exists j :: 0 <= j < |parts| && versionRange(parts[j]) == r
    decreases |parts|
  {
    if parts == [] then None
    else if versionRange(parts[0]).Some? then versionRange(parts[0])
    else FirstVersionPart(parts[1..], versionRange)
  }

  /** The version taken from a `uv==...` specifier: the environment marker
      after the first `;` is dropped, the rest is split on `,`, and the first
      piece the version-range pattern accepts gives the version. */
  function PinnedVersion(version: string, versionRange: string -> Option<string>): (r: Option<string>)
    ensures r.Some? ==> exists p :: p in Split(BeforeFirst(version, ';'), ',') && versionRange(p) == r
  {
    FirstVersionPart(Split(BeforeFirst(version, ';'), ','), versionRange)
  }

  /** What a single line of the requirements file decides:
      `None` means the scan goes on to the next line. */
  function LineDecision(line: string, patterns: RequirementPatterns): (r: Option<Result<string, UvError>>)
    ensures r.Some? ==> patterns.packageLine(line).Some? && patterns.packageLine(line).value.pkg == "uv"
    ensures r == Some(Failure(UvNotPinned)) <==>
              patterns.packageLine(line).Some? && patterns.packageLine(line).value.pkg == "uv" &&
              (patterns.packageLine(line).value.sep != "==" || patterns.packageLine(line).value.version == "")
    ensures r != Some(Failure(InvalidUvRequirement))
  {
    match patterns.packageLine(line)
    case None => None
    case Some(req) =>
      if req.pkg != "uv" then None
      else if req.sep != "==" || req.version == "" then Some(Failure(UvNotPinned))
      else
        match PinnedVersion(req.version, patterns.versionRange)
        case Some(v) => Some(Success(v))
        case None => None
  }

  /** The outcome of looking for the uv version in the given lines: the
      decision of the first line that decides, or `InvalidUvRequirement`. */
  function UvVersion(lines: seq<string>, patterns: RequirementPatterns): Result<string, UvError>
    decreases |lines|
  {
    if lines == [] then Failure(InvalidUvRequirement)
    else
      match LineDecision(lines[0], patterns)
      case Some(r) => r
      case None => UvVersion(lines[1..], patterns)
  }

  /** `_get_uv_version`, with the lines of requirements_test.txt as a parameter. */
  method GetUvVersion(lines: seq<string>, patterns: RequirementPatterns) returns (r: Result<string, UvError>)
    ensures r == UvVersion(lines, patterns)
  {
    for i := 0 to |lines|
      invariant UvVersion(lines[i..], patterns) == UvVersion(lines, patterns)
    {
      assert lines[i..][1..] == lines[i + 1..];
      var m := patterns.packageLine(lines[i]);
      if m.None? {
        continue;
      }
      var req := m.value;
      if req.pkg != "uv" {
        continue;
      }
      if req.sep != "==" || req.version == "" {
        return Failure(UvNotPinned);
      }
      var parts := Split(BeforeFirst(req.version, ';'), ',');
      for k := 0 to |parts|
        invariant FirstVersionPart(parts[k..], patterns.versionRange) == FirstVersionPart(parts, patterns.versionRange)
      {
        assert parts[k..][1..] == parts[k + 1..];
        var versionPart := patterns.versionRange(parts[k]);
        if versionPart.Some? {
          return Success(versionPart.value);
        }
      }
    }
    return Failure(InvalidUvRequirement);
  }

  /** The first accepted piece is accepted, and no earlier piece is. */
  lemma {:induction false} FirstVersionPartIsFirst(parts: seq<string>, versionRange: string -> Option<string>)
    ensures FirstVersionPart(parts, versionRange).None? <==>
              forall j :: 0 <= j < |parts| ==> versionRange(parts[j]).None?
    ensures FirstVersionPart(parts, versionRange).Some? ==>
              exists i :: 0 <= i < |parts| && versionRange(parts[i]) == FirstVersionPart(parts, versionRange) &&
                          forall j :: 0 <= j < i ==> versionRange(parts[j]).None?
    decreases |parts|
  {
    if parts != [] && versionRange(parts[0]).None? {
      FirstVersionPartIsFirst(parts[1..], versionRange);
      if FirstVersionPart(parts, versionRange).Some? {
        var i :| 0 <= i < |parts[1..]| && versionRange(parts[1..][i]) == FirstVersionPart(parts[1..], versionRange) &&
                 forall j :: 0 <= j < i ==> versionRange(parts[1..][j]).None?;
        assert versionRange(parts[i + 1]) == FirstVersionPart(parts, versionRange);
        assert forall j :: 0 <= j < i + 1 ==> versionRange(parts[j]).None? by {
          forall j | 0 <= j < i + 1 ensures versionRange(parts[j]).None? {
            if j > 0 { assert parts[j] == parts[1..][j - 1]; }
          }
        }
      } else {
        forall j | 0 <= j < |parts| ensures versionRange(parts[j]).None? {
          if j > 0 { assert parts[j] == parts[1..][j - 1]; }
        }
      }
    }
  }

  /** Nothing after the first `;` of a specifier influences the version. */
  lemma PinnedVersionIgnoresMarker(head: string, marker: string, versionRange: string -> Option<string>)
    requires ';' !in head
    ensures PinnedVersion(head + ";" + marker, versionRange) == PinnedVersion(head, versionRange)
  {
    BeforeFirstIgnoresTail(head, ';', marker);
    BeforeFirstOfSeparatorFree(head, ';');
  }

  lemma {:induction false} BeforeFirstOfSeparatorFree(s: string, sep: char)
    requires sep !in s
    ensures BeforeFirst(s, sep) == s
    decreases |s|
  {
    if s != [] {
      BeforeFirstOfSeparatorFree(s[1..], sep);
      assert [s[0]] + s[1..] == s;
    }
  }

  /** Lines that decide nothing (unparsable lines, other packages, and uv
      pins none of whose pieces match) can be dropped from the front. */
  lemma {:induction false} UvVersionSkipsUndecided(skipped: seq<string>, rest: seq<string>, patterns: RequirementPatterns)
    requires forall j :: 0 <= j < |skipped| ==> LineDecision(skipped[j], patterns).None?
    ensures UvVersion(skipped + rest, patterns) == UvVersion(rest, patterns)
    decreases |skipped|
  {
    if skipped == [] {
      assert skipped + rest == rest;
    } else {
      assert (skipped + rest)[0] == skipped[0];
      assert LineDecision(skipped[0], patterns).None?;
      assert (skipped + rest)[1..] == skipped[1..] + rest;
      assert forall j :: 0 <= j < |skipped[1..]| ==> skipped[1..][j] == skipped[j + 1];
      assert UvVersion(skipped + rest, patterns) == UvVersion((skipped + rest)[1..], patterns);
      UvVersionSkipsUndecided(skipped[1..], rest, patterns);
    }
  }

  /** Unparsable lines and lines naming another package never change the outcome. */
  lemma UvVersionSkipsOtherLines(line: string, rest: seq<string>, patterns: RequirementPatterns)
    requires patterns.packageLine(line).None? || patterns.packageLine(line).value.pkg != "uv"
    ensures UvVersion([line] + rest, patterns) == UvVersion(rest, patterns)
  {
    assert ([line] + rest)[1..] == rest;
  }

  /** A correctly pinned uv line none of whose pieces match does not raise:
      the scan continues with the next line. */
  lemma UvVersionContinuesAfterUnmatchedPin(line: string, rest: seq<string>, patterns: RequirementPatterns)
    requires patterns.packageLine(line).Some?
    requires patterns.packageLine(line).value.pkg == "uv"
    requires patterns.packageLine(line).value.sep == "=="
    requires patterns.packageLine(line).value.version != ""
    requires PinnedVersion(patterns.packageLine(line).value.version, patterns.versionRange).None?
    ensures UvVersion([line] + rest, patterns) == UvVersion(rest, patterns)
  {
    assert ([line] + rest)[1..] == rest;
  }

  /** A badly pinned first uv line raises the pin error, whatever follows it,
      even a correct pin. */
  lemma UvVersionPinError(skipped: seq<string>, line: string, rest: seq<string>, patterns: RequirementPatterns)
    requires forall j :: 0 <= j < |skipped| ==> LineDecision(skipped[j], patterns).None?
    requires patterns.packageLine(line).Some?
    requires patterns.packageLine(line).value.pkg == "uv"
    requires patterns.packageLine(line).value.sep != "==" || patterns.packageLine(line).value.version == ""
    ensures UvVersion(skipped + [line] + rest, patterns) == Failure(UvNotPinned)
  {
    assert skipped + [line] + rest == skipped + ([line] + rest);
    UvVersionSkipsUndecided(skipped, [line] + rest, patterns);
  }

  /** The outcome is `InvalidUvRequirement` exactly when no line decides;
      otherwise it is the decision of the first line that decides. */
  lemma {:induction false} UvVersionIsFirstDecision(lines: seq<string>, patterns: RequirementPatterns)
    ensures UvVersion(lines, patterns) == Failure(InvalidUvRequirement) <==>
              forall j :: 0 <= j < |lines| ==> LineDecision(lines[j], patterns).None?
    ensures UvVersion(lines, patterns) != Failure(InvalidUvRequirement) ==>
              exists i :: 0 <= i < |lines| && LineDecision(lines[i], patterns) == Some(UvVersion(lines, patterns)) &&
                          forall j :: 0 <= j < i ==> LineDecision(lines[j], patterns).None?
    decreases |lines|
  {
    if lines != [] {
      var d := LineDecision(lines[0], patterns);
      if d.Some? {
        // d is never InvalidUvRequirement; line 0 itself decides
        assert d.value != Failure(InvalidUvRequirement);
      } else {
        UvVersionIsFirstDecision(lines[1..], patterns);
        if UvVersion(lines, patterns) != Failure(InvalidUvRequirement) {
          var i :| 0 <= i < |lines[1..]| && LineDecision(lines[1..][i], patterns) == Some(UvVersion(lines, patterns)) &&
                   forall j :: 0 <= j < i ==> LineDecision(lines[1..][j], patterns).None?;
          assert LineDecision(lines[i + 1], patterns) == Some(UvVersion(lines, patterns));
          forall j | 0 <= j < i + 1 ensures LineDecision(lines[j], patterns).None? {
            if j > 0 { assert lines[j] == lines[1..][j - 1]; }
          }
        } else {
          forall j | 0 <= j < |lines| ensures LineDecision(lines[j], patterns).None? {
            if j > 0 { assert lines[j] == lines[1..][j - 1]; }
          }
        }
      }
    }
  }

  /** `v` is what the version pattern gives for some piece, and every
      earlier piece is rejected. */
  ghost predicate FirstAccepted(parts: seq<string>, versionRange: string -> Option<string>, v: string)
  {
    exists i :: 0 <= i < |parts| && versionRange(parts[i]) == Some(v) &&
                forall j :: 0 <= j < i ==> versionRange(parts[j]).None?
  }

  /** The version of a piece list is `v` exactly when `v` comes from the
      first accepted piece. */
  lemma FirstVersionPartIsFirstAccepted(parts: seq<string>, versionRange: string -> Option<string>, v: string)
    ensures FirstVersionPart(parts, versionRange) == Some(v) <==> FirstAccepted(parts, versionRange, v)
  {
    FirstVersionPartIsFirst(parts, versionRange);
    if FirstAccepted(parts, versionRange, v) {
      var i :| 0 <= i < |parts| && versionRange(parts[i]) == Some(v) &&
               forall j :: 0 <= j < i ==> versionRange(parts[j]).None?;
      FirstMatchUnique(parts, versionRange, i);
    }
  }

  /** A line decides with a version exactly when it is an exact, non-empty
      `uv==` pin and the version comes from the first piece before the
      marker that the version pattern accepts. */
  lemma LineDecisionSuccess(line: string, patterns: RequirementPatterns, v: string)
    ensures LineDecision(line, patterns) == Some(Success(v)) <==>
              patterns.packageLine(line).Some? && patterns.packageLine(line).value.pkg == "uv" &&
              patterns.packageLine(line).value.sep == "==" && patterns.packageLine(line).value.version != "" &&
              FirstAccepted(Split(BeforeFirst(patterns.packageLine(line).value.version, ';'), ','), patterns.versionRange, v)
  {
    if patterns.packageLine(line).Some? {
      var parts := Split(BeforeFirst(patterns.packageLine(line).value.version, ';'), ',');
      FirstVersionPartIsFirstAccepted(parts, patterns.versionRange, v);
    }
  }

  /** A piece accepted after only rejected pieces is the first accepted one. */
  lemma {:induction false} FirstMatchUnique(parts: seq<string>, versionRange: string -> Option<string>, i: nat)
    requires i < |parts| && versionRange(parts[i]).Some?
    requires forall j :: 0 <= j < i ==> versionRange(parts[j]).None?
    ensures FirstVersionPart(parts, versionRange) == versionRange(parts[i])
    decreases i
  {
    if i > 0 {
      FirstMatchUnique(parts[1..], versionRange, i - 1);
    }
  }

  // ---------------------------------------------------------------------------
  // Rendering the Dockerfile
  // ---------------------------------------------------------------------------

  /** The six shutdown-stage timeouts, in seconds, that the container must
      wait for: four from `homeassistant.core`, one from `util.executor`, one
      from `util.thread`. */
  datatype ShutdownTimeouts = ShutdownTimeouts(
    stoppingStage: int,  // core.STOPPING_STAGE_SHUTDOWN_TIMEOUT
    stopStage: int,      // core.STOP_STAGE_SHUTDOWN_TIMEOUT
    finalWriteStage: int,// core.FINAL_WRITE_STAGE_SHUTDOWN_TIMEOUT
    closeStage: int,     // core.CLOSE_STAGE_SHUTDOWN_TIMEOUT
    executor: int,       // executor.EXECUTOR_SHUTDOWN_TIMEOUT
    threading: int)      // thread.THREADING_SHUTDOWN_TIMEOUT
  {
    function Sum(): int {
      stoppingStage + stopStage + finalWriteStage + closeStage + executor + threading
    }
  }

  /** `S6_SERVICES_GRACETIME` in milliseconds: every stage's timeout plus ten
      seconds of margin. */
  function GraceTime(t: ShutdownTimeouts): (ms: int)
    ensures (t.stoppingStage >= 0 && t.stopStage >= 0 && t.finalWriteStage >= 0 &&
             t.closeStage >= 0 && t.executor >= 0 && t.threading >= 0) ==> ms >= 10000
  {
    (t.Sum() + 10) * 1000
  }

  /** A longer stage timeout never shortens the grace time. */
  lemma GraceTimeMonotone(t: ShutdownTimeouts, u: ShutdownTimeouts)
    ensures (t.stoppingStage <= u.stoppingStage && t.stopStage <= u.stopStage &&
             t.finalWriteStage <= u.finalWriteStage && t.closeStage <= u.closeStage &&
             t.executor <= u.executor && t.threading <= u.threading) ==> GraceTime(t) <= GraceTime(u)
  {
  }

  /** The literal stretches of the Dockerfile template around its two fields,
      as they appear in the generated file: before `{timeout}`, between
      `{timeout}` and `{uv_version}`, and after `{uv_version}`. */
  datatype TemplateText = TemplateText(head: string, middle: string, tail: string)

  /** The template as written in the source: literal braces doubled, two fields. */
  function TemplateSource(t: TemplateText): string
  {
    Escape(t.head) + (Field("timeout") + (Escape(t.middle) + (Field("uv_version") + Escape(t.tail))))
  }

  /** Formatting the template substitutes exactly the two fields and turns
      every doubled brace into a single one. */
  lemma FormatTemplate(t: TemplateText, timeout: string, uv: string)
    ensures Format(TemplateSource(t), map["timeout" := timeout, "uv_version" := uv]) ==
            Success(t.head + timeout + t.middle + uv + t.tail)
  {
    var args := map["timeout" := timeout, "uv_version" := uv];
    var rest1 := Field("uv_version") + Escape(t.tail);
    var rest0 := Escape(t.middle) + rest1;
    var rest := Field("timeout") + rest0;
    FormatLiteral(t.tail, args);
    StepField("uv_version", Escape(t.tail), args, t.tail);
    StepEscaped(t.middle, rest1, args, uv + t.tail);
    StepField("timeout", rest0, args, t.middle + (uv + t.tail));
    StepEscaped(t.head, rest, args, timeout + (t.middle + (uv + t.tail)));
    ConcatFive(t.head, timeout, t.middle, uv, t.tail);
  }

  lemma StepField(name: string, t: string, args: map<string, string>, rendered: string)
    requires name == "timeout" || name == "uv_version"
    requires name in args && Format(t, args) == Success(rendered)
    ensures Format(Field(name) + t, args) == Success(args[name] + rendered)
  {
    assert forall i :: 0 <= i < |name| ==> !IsBrace(name[i]);
    FormatField(name, t, args);
  }

  lemma StepEscaped(s: string, t: string, args: map<string, string>, rendered: string)
    requires Format(t, args) == Success(rendered)
    ensures Format(Escape(s) + t, args) == Success(s + rendered)
  {
    FormatEscaped(s, t, args);
  }

  lemma ConcatFive(a: string, b: string, c: string, d: string, e: string)
    ensures a + (b + (c + (d + e))) == a + b + c + d + e
  {
  }

  /** Everything `_generate_dockerfile` reads: the timeout constants, the
      template, the lines of requirements_test.txt, and the patterns. */
  datatype DockerInputs = DockerInputs(
    timeouts: ShutdownTimeouts,
    template: TemplateText,
    requirementsTest: seq<string>,
    patterns: RequirementPatterns)

  /** The exceptions rendering can raise. */
  datatype DockerError = UvFailed(uv: UvError) | FormatFailed(format: FormatError)

  /** `_generate_dockerfile`: the template formatted with the grace time and
      the pinned uv version. */
  function GenerateDockerfile(inputs: DockerInputs): (r: Result<string, DockerError>)
    ensures UvVersion(inputs.requirementsTest, inputs.patterns).Failure? ==>
              r == Failure(UvFailed(UvVersion(inputs.requirementsTest, inputs.patterns).error))
    ensures UvVersion(inputs.requirementsTest, inputs.patterns).Success? ==>
              r == Success(inputs.template.head + IntToDecimal(GraceTime(inputs.timeouts)) + inputs.template.middle +
                           UvVersion(inputs.requirementsTest, inputs.patterns).value + inputs.template.tail)
  {
    match UvVersion(inputs.requirementsTest, inputs.patterns)
    case Failure(e) => Failure(UvFailed(e))
    case Success(uv) =>
      var timeout := IntToDecimal(GraceTime(inputs.timeouts));
      FormatTemplate(inputs.template, timeout, uv);
      match Format(TemplateSource(inputs.template), map["timeout" := timeout, "uv_version" := uv])
      case Success(text) => Success(text)
      case Failure(e) => Failure(FormatFailed(e))
  }

  /** The rendered file carries the grace time as a decimal numeral that reads
      back as `(sum of the six timeouts + 10) * 1000`, and the uv version. */
  lemma DockerfileCarriesTimeoutAndVersion(inputs: DockerInputs)
    requires GenerateDockerfile(inputs).Success?
    ensures exists numeral, uv ::
              GenerateDockerfile(inputs).value == inputs.template.head + numeral + inputs.template.middle + uv + inputs.template.tail &&
              ParseInt(numeral) == Some((inputs.timeouts.Sum() + 10) * 1000) &&
              UvVersion(inputs.requirementsTest, inputs.patterns) == Success(uv)
  {
    IntDecimalRoundTrip(GraceTime(inputs.timeouts));
    var numeral := IntToDecimal(GraceTime(inputs.timeouts));
    var uv := UvVersion(inputs.requirementsTest, inputs.patterns).value;
    assert GenerateDockerfile(inputs).value == inputs.template.head + numeral + inputs.template.middle + uv + inputs.template.tail;
  }

  // ---------------------------------------------------------------------------
  // validate and generate
  // ---------------------------------------------------------------------------

  /** One entry of the hassfest error list. */
  datatype ValidationError = ValidationError(plugin: string, error: string, fixable: bool)

  const DockerfileKey: string := "dockerfile"

  /** The error `validate` reports when the checked-in Dockerfile is stale. */
  const StaleDockerfile: ValidationError :=
    ValidationError("docker", "File Dockerfile is not up to date. Run python3 -m script.hassfest", true)

  /** The part of hassfest's configuration the plugin touches: the cache
      shared between its steps and the list of reported errors. */
  class Config {
    var cache: map<string, string>
    var errors: seq<ValidationError>

    constructor ()
      ensures cache == map[] && errors == []
    {
      cache := map[];
      errors := [];
    }

    /** `add_error`: append one error to the list. */
    method AddError(plugin: string, error: string, fixable: bool)
      modifies this
      ensures errors == old(errors) + [ValidationError(plugin, error, fixable)]
      ensures cache == old(cache)
    {
      errors := errors + [ValidationError(plugin, error, fixable)];
    }
  }

  /** `validate`: render the Dockerfile, cache it, and report a fixable
      `docker` error when the checked-in file (`onDisk`) differs from it.
      A rendering failure is raised before anything changes. */
  method Validate(config: Config, inputs: DockerInputs, onDisk: string) returns (outcome: Result<(), DockerError>)
    modifies config
    ensures GenerateDockerfile(inputs).Failure? ==>
              outcome == Failure(GenerateDockerfile(inputs).error) &&
              config.cache == old(config.cache) && config.errors == old(config.errors)
    ensures GenerateDockerfile(inputs).Success? ==>
              outcome == Success(()) &&
              config.cache == old(config.cache)[DockerfileKey := GenerateDockerfile(inputs).value] &&
              config.errors == old(config.errors) + (if onDisk != GenerateDockerfile(inputs).value then [StaleDockerfile] else [])
  {
    var rendered := GenerateDockerfile(inputs);
    if rendered.Failure? {
      return Failure(rendered.error);
    }
    var dockerfileContent := rendered.value;
    config.cache := config.cache[DockerfileKey := dockerfileContent];
    if onDisk != dockerfileContent {
      config.AddError(StaleDockerfile.plugin, StaleDockerfile.error, StaleDockerfile.fixable);
    }
    return Success(());
  }

  /** Why `generate` can fail: `config.cache["dockerfile"]` raises `KeyError`. */
  datatype GenerateError = MissingCacheEntry

  /** `generate`: the text written to the Dockerfile is exactly the cached one. */
  method Generate(config: Config) returns (written: Result<string, GenerateError>)
    ensures DockerfileKey in config.cache ==> written == Success(config.cache[DockerfileKey])
    ensures DockerfileKey !in config.cache ==> written == Failure(MissingCacheEntry)
  {
    if DockerfileKey !in config.cache {
      return Failure(MissingCacheEntry);
    }
    return Success(config.cache[DockerfileKey]);
  }

  /** Running `validate` and then `generate` on one configuration writes the
      freshly rendered text, whatever was cached before. */
  method ValidateThenGenerate(config: Config, inputs: DockerInputs, onDisk: string)
    returns (outcome: Result<(), DockerError>, written: Result<string, GenerateError>)
    modifies config
    ensures GenerateDockerfile(inputs).Success? ==>
              outcome == Success(()) && written == Success(GenerateDockerfile(inputs).value)
    ensures GenerateDockerfile(inputs).Failure? ==>
              outcome == Failure(GenerateDockerfile(inputs).error) && config.cache == old(config.cache) &&
              written == (if DockerfileKey in old(config.cache) then Success(old(config.cache)[DockerfileKey])
                          else Failure(MissingCacheEntry))
  {
    outcome := Validate(config, inputs, onDisk);
    written := Generate(config);
  }
}
