/**
 * The normalisation of the parsed command-line options (`src/cli.rs`),
 * `Cli::post_automations` and its three steps. Argument parsing itself is
 * not modelled: a `Cli` value is what the parser produced, and the value of
 * the environment variable `FRS_DEFAULT_OP` is passed in (`None` when it is
 * unset or not valid Unicode, which `std::env::var` reports alike).
 */
module CommandLine {
  import opened Types

  newtype u8 = x: int | 0 <= x < 0x100

  /** The environment variable that chooses the default operation mode. */
  const DEFAULT_OP_VAR: string := "FRS_DEFAULT_OP"

  /** The mode assumed when the variable is unset. */
  const DRY_RUN: string := "DRY-RUN"
  const RUN: string := "RUN"

  datatype Error =
    | MultipleOperationModes
    | UnknownEnvVarContent(varName: string, content: string)

  /** The parsed options; the patterns and the base path are carried along unchanged. */
  datatype Cli = Cli(
    dryRun: bool,
    run: bool,
    verbose: u8,
    continueOnError: bool,
    traverseTree: bool,
    file: bool,
    directory: bool,
    symlink: bool,
    caseInsensitive: bool,
    icons: bool,
    searchPattern: string,
    replacePattern: string,
    basePath: string)

  predicate IsLowerAscii(c: char) {
    'a' <= c <= 'z'
  }

  /** `str::to_uppercase`, restricted to ASCII letters. */
  function ToUpperAscii(s: string): (r: string)
    ensures |r| == |s|
    ensures forall i :: 0 <= i < |s| ==> !IsLowerAscii(r[i])
    ensures forall i :: 0 <= i < |s| && !IsLowerAscii(s[i]) ==> r[i] == s[i]
    ensures forall i :: 0 <= i < |s| && IsLowerAscii(s[i]) ==> r[i] as int == s[i] as int - 32
  {
    seq(|s|, i requires 0 <= i < |s| => if IsLowerAscii(s[i]) then (s[i] as int - 32) as char else s[i])
  }

  /** Upper-casing twice changes nothing further. */
  lemma ToUpperIdempotent(s: string)
    ensures ToUpperAscii(ToUpperAscii(s)) == ToUpperAscii(s)
  {
  }

  /** The upper-cased value names one of the two operation modes. */
  predicate KnownMode(mode: string) {
    mode == RUN || mode == DRY_RUN
  }

  /** The upper-cased operation mode the environment asks for. */
  function RequestedMode(env: Option<string>): (r: string)
    ensures env.None? ==> r == DRY_RUN
    ensures env.Some? ==> r == ToUpperAscii(env.value)
  {
    ToUpperAscii(env.GetOr(DRY_RUN))
  }

  /**
   * `Cli::set_operation_mode`: both flags set is an error before the
   * environment is consulted; `RUN` sets `run` unless `dry_run` is set,
   * `DRY-RUN` (also the default) sets `dry_run` unless `run` is set, and any
   * other value is reported with the variable's name and the upper-cased
   * value. Nothing but the two mode flags changes.
   */
  function SetOperationMode(c: Cli, env: Option<string>): (r: Result<Cli, Error>)
    ensures (c.run && c.dryRun) <==> r == Err(MultipleOperationModes)
    ensures r.Ok? ==> r.value.run != r.value.dryRun
    ensures r.Ok? ==> r.value == c.(run := r.value.run, dryRun := r.value.dryRun)
    ensures r.Ok? ==> (c.run ==> r.value.run) && (c.dryRun ==> r.value.dryRun)
  {
    if c.run && c.dryRun then Err(MultipleOperationModes)
    else
      var mode := RequestedMode(env);
      if mode == RUN then Ok(if !c.dryRun then c.(run := true) else c)
      else if mode == DRY_RUN then Ok(if !c.run then c.(dryRun := true) else c)
      else Err(UnknownEnvVarContent(DEFAULT_OP_VAR, mode))
  }

  /**
   * With at most one flag set, the call fails exactly when the upper-cased
   * value names no mode, and the error carries the variable's name and that
   * value.
   */
  lemma UnknownModeRejected(c: Cli, env: Option<string>)
    requires !(c.run && c.dryRun)
    ensures SetOperationMode(c, env).Ok? <==> KnownMode(RequestedMode(env))
    ensures !KnownMode(RequestedMode(env)) ==>
      SetOperationMode(c, env) == Err(UnknownEnvVarContent(DEFAULT_OP_VAR, RequestedMode(env)))
  {
  }

  /** A mode given on the command line wins over the environment's default. */
  lemma ExplicitModeWins(c: Cli, env: Option<string>)
    requires c.run != c.dryRun
    requires KnownMode(RequestedMode(env))
    ensures SetOperationMode(c, env) == Ok(c)
  {
  }

  /** Without a mode on the command line, the environment's default applies. */
  lemma DefaultModeApplies(c: Cli, env: Option<string>)
    requires !c.run && !c.dryRun
    ensures RequestedMode(env) == RUN ==> SetOperationMode(c, env) == Ok(c.(run := true))
    ensures RequestedMode(env) == DRY_RUN ==> SetOperationMode(c, env) == Ok(c.(dryRun := true))
    ensures env.None? ==> SetOperationMode(c, env) == Ok(c.(dryRun := true))
  {
  }

  /** The value of the variable is matched without regard to the case of its letters. */
  lemma ModeIgnoresCase(c: Cli, s: string)
    ensures SetOperationMode(c, Some(s)) == SetOperationMode(c, Some(ToUpperAscii(s)))
  {
    ToUpperIdempotent(s);
  }

  /**
   * `Cli::set_verbosity`: the least verbosity that is at least the given one
   * and, in a dry run, at least 1.
   */
  function SetVerbosity(c: Cli): (r: Cli)
    ensures r == c.(verbose := r.verbose)
    ensures r.verbose >= c.verbose
    ensures r.dryRun ==> r.verbose >= 1
    ensures r.verbose == c.verbose || (c.dryRun && c.verbose == 0 && r.verbose == 1)
  {
    var floor: u8 := if c.dryRun then 1 else 0;
    c.(verbose := if c.verbose >= floor then c.verbose else floor)
  }

  lemma SetVerbosityIdempotent(c: Cli)
    ensures SetVerbosity(SetVerbosity(c)) == SetVerbosity(c)
  {
  }

  /** No file type was chosen on the command line. */
  predicate NoTypeSelected(c: Cli) {
    !(c.file || c.directory || c.symlink)
  }

  /**
   * `Cli::set_types`: when no type was chosen, files and symlinks are
   * selected, and directories too unless the tree is traversed; a choice
   * made on the command line is kept as it is.
   */
  function SetTypes(c: Cli): (r: Cli)
    ensures r == c.(file := r.file, directory := r.directory, symlink := r.symlink)
    ensures !NoTypeSelected(r)
    ensures !NoTypeSelected(c) ==> r == c
    ensures NoTypeSelected(c) ==> r.file && r.symlink && (r.directory <==> !c.traverseTree)
  {
    var none := NoTypeSelected(c);
    c.(file := c.file || none,
       directory := c.directory || (none && !c.traverseTree),
       symlink := c.symlink || none)
  }

  lemma SetTypesIdempotent(c: Cli)
    ensures SetTypes(SetTypes(c)) == SetTypes(c)
  {
  }

  /**
   * `Cli::post_automations`: the mode, then the verbosity, then the types;
   * a mode error is returned before the other two steps.
   */
  function PostAutomations(c: Cli, env: Option<string>): (r: Result<Cli, Error>)
    ensures SetOperationMode(c, env).Err? ==> r == Err(SetOperationMode(c, env).error)
    ensures r.Ok? <==> SetOperationMode(c, env).Ok?
    ensures r.Ok? ==> r.value == SetTypes(SetVerbosity(SetOperationMode(c, env).value))
  {
    match SetOperationMode(c, env)
    case Err(e) => Err(e)
    case Ok(moded) => Ok(SetTypes(SetVerbosity(moded)))
  }

  /**
   * Normalised options: exactly one mode, a dry run at least verbosity 1, and
   * at least one file type selected.
   */
  predicate Normalised(c: Cli) {
    && c.run != c.dryRun
    && (c.dryRun ==> c.verbose >= 1)
    && !NoTypeSelected(c)
  }

  /**
   * A successful run normalises the options, never lowers the verbosity and
   * leaves the patterns and the base path alone.
   */
  lemma PostAutomationsNormalises(c: Cli, env: Option<string>)
    requires PostAutomations(c, env).Ok?
    ensures var r := PostAutomations(c, env).value;
      && Normalised(r)
      && r.verbose >= c.verbose
      && r.searchPattern == c.searchPattern && r.replacePattern == c.replacePattern && r.basePath == c.basePath
  {
  }

  /** Options that are already normalised pass through unchanged. */
  lemma NormalisedIsFixed(c: Cli, env: Option<string>)
    requires Normalised(c) && KnownMode(RequestedMode(env))
    ensures PostAutomations(c, env) == Ok(c)
  {
    ExplicitModeWins(c, env);
    assert SetVerbosity(c) == c;
  }

  /** Normalising twice is normalising once. */
  lemma PostAutomationsIdempotent(c: Cli, env: Option<string>)
    requires PostAutomations(c, env).Ok?
    ensures PostAutomations(PostAutomations(c, env).value, env) == PostAutomations(c, env)
  {
    UnknownModeRejected(c, env);
    PostAutomationsNormalises(c, env);
    NormalisedIsFixed(PostAutomations(c, env).value, env);
  }
}
