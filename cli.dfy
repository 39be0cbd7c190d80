// `pfctl test` (cmd/pfctl/test_cmd.go): the flow inputs taken from the
// `-i key=value` arguments, the run of the flow, and the token total that
// printExecutionResult reports. Reading the flow file, the timeout and the
// printing itself are not part of the model.

module Cli {
  import opened Wrappers
  import opened Strings
  import opened FlowModel
  import Validator
  import Providers
  import Executor

  /** The error Run returns for an argument without '='. */
  function InputFormatError(arg: string): string {
    "invalid input format: " + arg + " (expected key=value)"
  }

  /** The key of a `key=value` argument: the text before the first '='. */
  function ArgKey(arg: string): string {
    PrefixBefore(arg, '=')
  }

  /** The value of a `key=value` argument: everything after the first '=',
      further '=' included. */
  function ArgValue(arg: string): string {
    SuffixAfter(arg, '=')
  }

  /** The flow inputs after the first n arguments, or the error for the
      first argument without '='; a later key overrides an earlier one. */
  function InputsOfFirst(args: seq<string>, n: nat): Result<map<string, Executor.Value>>
    requires n <= |args|
  {
    if n == 0 then Success(map[])
    else match InputsOfFirst(args, n - 1)
      case Failure(e) => Failure(e)
      case Success(inputs) =>
        var arg := args[n - 1];
        if '=' in arg then Success(inputs[ArgKey(arg) := Executor.Text(ArgValue(arg))])
        else Failure(InputFormatError(arg))
  }

  function ParsedInputs(args: seq<string>): Result<map<string, Executor.Value>> {
    InputsOfFirst(args, |args|)
  }

  /** An argument with '=' is its key, '=' and its value. */
  lemma ArgSplits(arg: string)
    requires '=' in arg
    ensures arg == ArgKey(arg) + "=" + ArgValue(arg) && '=' !in ArgKey(arg)
  {
    PrefixBeforeSplitN2(arg, '=');
    SuffixAfterSplitN2(arg, '=');
  }

  /** The arguments parse exactly when each has an '='. */
  lemma {:induction false} InputsSucceed(args: seq<string>, n: nat)
    requires n <= |args|
    ensures InputsOfFirst(args, n).Success? <==> forall i | 0 <= i < n :: '=' in args[i]
  {
    if n > 0 {
      InputsSucceed(args, n - 1);
    }
  }

  /** The parsed inputs are keyed by exactly the arguments' keys; an empty
      key is kept. */
  lemma {:induction false} InputsKeys(args: seq<string>, n: nat)
    requires n <= |args| && InputsOfFirst(args, n).Success?
    ensures forall key :: key in InputsOfFirst(args, n).value <==> exists i :: 0 <= i < n && ArgKey(args[i]) == key
  {
    if n > 0 {
      InputsKeys(args, n - 1);
    }
  }

  /** A key holds the value of the last argument that carries it. */
  lemma {:induction false} InputsLastWins(args: seq<string>, n: nat, i: nat)
    requires n <= |args| && InputsOfFirst(args, n).Success?
    requires i < n && forall k | i < k < n :: ArgKey(args[k]) != ArgKey(args[i])
    ensures ArgKey(args[i]) in InputsOfFirst(args, n).value
    ensures InputsOfFirst(args, n).value[ArgKey(args[i])] == Executor.Text(ArgValue(args[i]))
  {
    if i < n - 1 {
      InputsLastWins(args, n - 1, i);
    }
  }

  /** A failed parse reports the first argument without '='. */
  lemma {:induction false} InputsFail(args: seq<string>, n: nat) returns (i: nat)
    requires n <= |args| && InputsOfFirst(args, n).Failure?
    ensures i < n && '=' !in args[i] && forall k | 0 <= k < i :: '=' in args[k]
    ensures InputsOfFirst(args, n).error == InputFormatError(args[i])
  {
    if InputsOfFirst(args, n - 1).Failure? {
      i := InputsFail(args, n - 1);
    } else {
      InputsSucceed(args, n - 1);
      i := n - 1;
    }
  }

  /** The `-i` loop of Run (test_cmd.go:34-46); the warning it prints for
      a repeated key is not part of the model. */
  method ParseInputs(args: seq<string>) returns (r: Result<map<string, Executor.Value>>)
    ensures r == ParsedInputs(args)
  {
    var inputs: map<string, Executor.Value> := map[];
    for n := 0 to |args|
      invariant InputsOfFirst(args, n) == Success(inputs)
    {
      var arg := args[n];
      var parts := SplitN2(arg, '=');
      if |parts| != 2 {
        r := Failure(InputFormatError(arg));
        InputsFailSticks(args, n + 1, |args|);
        return;
      }
      PrefixBeforeSplitN2(arg, '=');
      SuffixAfterSplitN2(arg, '=');
      inputs := inputs[parts[0] := Executor.Text(parts[1])];
    }
    return Success(inputs);
  }

  /** Once an argument is malformed, later ones change nothing. */
  lemma {:induction false} InputsFailSticks(args: seq<string>, n: nat, m: nat)
    requires n <= m <= |args| && InputsOfFirst(args, n).Failure?
    ensures InputsOfFirst(args, m) == InputsOfFirst(args, n)
  {
    if n < m {
      InputsFailSticks(args, n, m - 1);
    }
  }

  // ----- the token total of printExecutionResult -----

  /** What the first n node results add to totalTokens: the input tokens
      of each result with a positive input count (test_cmd.go:95-102). */
  function TokensOfFirst(results: seq<Executor.NodeResult>, n: nat): int
    requires n <= |results|
  {
    if n == 0 then 0
    else
      var m := results[n - 1].metrics;
      TokensOfFirst(results, n - 1) + (if m.inputTokens > 0 then m.inputTokens else 0)
  }

  /** The loop of printExecutionResult that sums totalTokens
      (test_cmd.go:83-103). */
  method TotalTokens(results: seq<Executor.NodeResult>) returns (totalTokens: int)
    ensures totalTokens == TokensOfFirst(results, |results|)
  {
    totalTokens := 0;
    for i := 0 to |results|
      invariant totalTokens == TokensOfFirst(results, i)
    {
      var nodeResult := results[i];
      if nodeResult.metrics.inputTokens > 0 {
        totalTokens := totalTokens + nodeResult.metrics.inputTokens;
      }
    }
  }

  /** The total is never negative, and is at least each counted node's
      input tokens. */
  lemma {:induction false} TokensBounds(results: seq<Executor.NodeResult>, n: nat)
    requires n <= |results|
    ensures TokensOfFirst(results, n) >= 0
    ensures forall i | 0 <= i < n :: TokensOfFirst(results, n) >= results[i].metrics.inputTokens
  {
    if n > 0 {
      TokensBounds(results, n - 1);
    }
  }

  /** Output tokens do not enter the total: results that differ only in
      their output tokens have the same total. */
  lemma {:induction false} TokensIgnoreOutputs(results: seq<Executor.NodeResult>, others: seq<Executor.NodeResult>, n: nat)
    requires n <= |results| == |others|
    requires forall i | 0 <= i < |results| :: results[i].metrics.inputTokens == others[i].metrics.inputTokens
    ensures TokensOfFirst(results, n) == TokensOfFirst(others, n)
  {
    if n > 0 {
      TokensIgnoreOutputs(results, others, n - 1);
    }
  }

  /** The total over two runs' results is the sum of their totals. */
  lemma {:induction false} TokensAppend(a: seq<Executor.NodeResult>, b: seq<Executor.NodeResult>, n: nat)
    requires n <= |b|
    ensures TokensOfFirst(a + b, |a| + n) == TokensOfFirst(a, |a|) + TokensOfFirst(b, n)
  {
    if n == 0 {
      TokensPrefix(a + b, a, |a|);
    } else {
      TokensAppend(a, b, n - 1);
      assert (a + b)[|a| + n - 1] == b[n - 1];
    }
  }

  /** The total of the first n results depends on those results only. */
  lemma {:induction false} TokensPrefix(s: seq<Executor.NodeResult>, t: seq<Executor.NodeResult>, n: nat)
    requires n <= |s| && n <= |t| && s[..n] == t[..n]
    ensures TokensOfFirst(s, n) == TokensOfFirst(t, n)
  {
    if n > 0 {
      assert s[n - 1] == s[..n][n - 1] == t[..n][n - 1] == t[n - 1];
      assert s[..n - 1] == s[..n][..n - 1];
      assert t[..n - 1] == t[..n][..n - 1];
      TokensPrefix(s, t, n - 1);
    }
  }

  // ----- Run -----

  /** What Run prints: the execution result and the token total. */
  datatype Summary = Summary(result: Executor.ExecutionResult, totalTokens: int)

  /** The registry Run builds: the three providers, registered one by
      one. */
  function RunProviders(): map<string, Providers.Provider> {
    Providers.WithDefaults(map[])
  }

  /** Run (test_cmd.go:22-70), with the parsed flow file as a parameter: a
      parse or validation failure, then a malformed argument, stop it
      before anything runs; otherwise the flow is executed with the parsed
      inputs and the three built-in providers, its result is summarised,
      and Execute's error is returned. */
  method Run(parsed: Result<Flow>, args: seq<string>, services: Executor.Services)
    returns (err: Option<string>, summary: Option<Summary>)
    ensures parsed.Failure? ==> err == Some("failed to parse flow: " + parsed.error) && summary.None?
    ensures parsed.Success? && !Validator.ValidFlow(parsed.value) ==> err.Some? && summary.None?
    ensures parsed.Success? && Validator.PrecheckError(parsed.value).Some? ==>
      err == Some("validation failed: " + Validator.Text(Validator.PrecheckError(parsed.value).value))
    ensures parsed.Success? && Validator.PrecheckError(parsed.value).None? &&
            HasCycle(Adjacency(GoSplitN, parsed.value.nodes)) ==>
      exists id :: id in NodeIds(parsed.value.nodes) &&
        err == Some("validation failed: " + Validator.Text(Validator.Invalid(Validator.CycleError(id))))
    ensures parsed.Success? && Validator.PrecheckError(parsed.value).None? &&
            !HasCycle(Adjacency(GoSplitN, parsed.value.nodes)) && Validator.ReferencesError(parsed.value.nodes).Some? ==>
      err == Some("validation failed: " + Validator.Text(Validator.Invalid(Validator.ReferencesError(parsed.value.nodes).value)))
    ensures parsed.Success? && Validator.ValidFlow(parsed.value) && ParsedInputs(args).Failure? ==>
      err == Some(ParsedInputs(args).error) && summary.None?
    ensures parsed.Success? && Validator.ValidFlow(parsed.value) && ParsedInputs(args).Success? ==>
      && summary.Some?
      && summary.value.totalTokens == TokensOfFirst(summary.value.result.nodeResults, |summary.value.result.nodeResults|)
      && exists order ::
           && Executor.IsExecutionOrder(parsed.value.nodes, order)
           && (summary.value.result, err) ==
                Executor.Finish(parsed.value,
                  Executor.RunOfFirst(Executor.NodeStep(Executor.RunEnv(services, RunProviders(), parsed.value.config,
                                                                        ParsedInputs(args).value)),
                                      order, |order|))
  {
    if parsed.Failure? {
      return Some("failed to parse flow: " + parsed.error), None;
    }
    var f := parsed.value;
    var invalid := Validator.Validate(f);
    if invalid.Some? {
      return Some("validation failed: " + Validator.Text(invalid.value)), None;
    }
    var inputs := ParseInputs(args);
    if inputs.Failure? {
      return Some(inputs.error), None;
    }
    var registry := new Providers.Registry();
    registry.Register(Providers.Provider(Providers.OpenAIName));
    registry.Register(Providers.Provider(Providers.AnthropicName));
    registry.Register(Providers.Provider(Providers.GithubPlaygroundOpenAIName));
    var result, e, order := Executor.Execute(services, registry, f, inputs.value);
    var totalTokens := TotalTokens(result.nodeResults);
    return e, Some(Summary(result, totalTokens));
  }
}
