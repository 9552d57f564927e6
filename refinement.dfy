/**
 * The generate/compile refinement loop of neuromansui's `main.py`: the
 * simulated compiler and `iterative_evaluation`, with the language model as
 * an oracle parameter.
 */
module Refinement {
  import opened Strings

  // The two compiler outputs are assembled from pieces, and a few lemmas
  // (ErrorOutputLacksS, InitialFeedbackLine) state single facts about
  // literals: this keeps the string reasoning in each proof small. The
  // assembled constants are exactly the literals of `compile_contract`.
  const ErrorLabel := "Compilation Error: "
  const ErrorReason := "ability constraint not satisfied"
  const ErrorOutput := ErrorLabel + ErrorReason
  const SuccessWord := "Successful"
  const SuccessOutput := "Compilation " + SuccessWord
  const InitialFeedback := "Initial run"
  const FeedbackLabel := "\n\nFeedback: "
  const RetryIntro := "The contract did not compile. Compiler output: "
  const RetryAdvice := ". Please revise the contract accordingly, ensuring that all errors are resolved."

  /** `compile_contract`: rejects exactly the sources whose lower-cased text contains "error". */
  function CompileContract(source: string): (out: string)
    ensures out == ErrorOutput || out == SuccessOutput
    ensures out == SuccessOutput <==> !Contains(Lower(source), "error")
    ensures out == SuccessOutput <==> forall i :: !OccursAt(Lower(source), "error", i)
  {
    ContainsIffOccurs(Lower(source), "error");
    if Contains(Lower(source), "error") then ErrorOutput else SuccessOutput
  }

  /** The loop's exit test: `"Successful" in compiler_feedback`. */
  predicate Succeeded(output: string)
  {
    Contains(output, SuccessWord)
  }

  /** The simulated compiler's output passes the exit test iff the source is free of "error". */
  lemma CompileOutcome(source: string)
    ensures Succeeded(CompileContract(source)) <==> !Contains(Lower(source), "error")
  {
    SuccessOutputPasses();
    ErrorOutputFails();
  }

  /** "Compilation Successful" contains "Successful". */
  lemma SuccessOutputPasses()
    ensures Succeeded(SuccessOutput)
  {
    ContainsSuffix("Compilation ", SuccessWord);
  }

  /** The error output does not contain "Successful". */
  lemma ErrorOutputFails()
    ensures !Succeeded(ErrorOutput)
  {
    ErrorOutputLacksS();
    AbsentHead(ErrorOutput, SuccessWord);
  }

  /** There is no 'S' in the error output. */
  lemma ErrorOutputLacksS()
    ensures 'S' !in ErrorOutput
  {
    assert 'S' !in ErrorLabel && 'S' !in ErrorReason;
  }

  /** The prompt of one pass: the base prompt and the current feedback. */
  function FullPrompt(basePrompt: string, feedback: string): string
  {
    basePrompt + FeedbackLabel + feedback
  }

  /** The feedback after a failed pass: that pass's compiler output and nothing else. */
  function RetryFeedback(output: string): string
  {
    RetryIntro + output + RetryAdvice
  }

  /** One pass of the loop: the prompt sent, the source generated, the compiler's output. */
  datatype Pass = Pass(prompt: string, source: string, output: string)

  /**
   * The passes from pass `i` on, entered with `feedback`: each pass calls the
   * generator once and the compiler once, and the run ends after a
   * successful pass or when `max` passes have been made.
   */
  function PassesFrom(
    basePrompt: string, generate: (nat, string) -> string, compile: string -> string,
    i: nat, max: nat, feedback: string): seq<Pass>
    decreases max - i
  {
    if i >= max then []
    else
      var prompt := FullPrompt(basePrompt, feedback);
      var source := generate(i, prompt);
      var output := compile(source);
      [Pass(prompt, source, output)]
        + if Succeeded(output) then []
          else PassesFrom(basePrompt, generate, compile, i + 1, max, RetryFeedback(output))
  }

  /** `range(max_iterations)` is empty for a negative bound. */
  function Bound(maxIterations: int): nat
  {
    if maxIterations < 0 then 0 else maxIterations
  }

  /** Every pass of `iterative_evaluation(basePrompt, maxIterations)`. */
  function Passes(
    basePrompt: string, maxIterations: int,
    generate: (nat, string) -> string, compile: string -> string): seq<Pass>
  {
    PassesFrom(basePrompt, generate, compile, 0, Bound(maxIterations), InitialFeedback)
  }

  /**
   * The loop's own view of the same run: from pass `i` with `feedback`, having
   * logged `log` so far, the log at the end.
   */
  function Run(
    basePrompt: string, generate: (nat, string) -> string, compile: string -> string,
    i: nat, max: nat, feedback: string, log: seq<Pass>): seq<Pass>
    decreases max - i
  {
    if i >= max then log
    else
      var prompt := FullPrompt(basePrompt, feedback);
      var source := generate(i, prompt);
      var output := compile(source);
      if Succeeded(output) then log + [Pass(prompt, source, output)]
      else Run(basePrompt, generate, compile, i + 1, max, RetryFeedback(output), log + [Pass(prompt, source, output)])
  }

  /** `Run` appends to its log exactly the passes `PassesFrom` describes. */
  lemma {:induction false} RunIsPasses(
    basePrompt: string, generate: (nat, string) -> string, compile: string -> string,
    i: nat, max: nat, feedback: string, log: seq<Pass>)
    ensures Run(basePrompt, generate, compile, i, max, feedback, log)
         == log + PassesFrom(basePrompt, generate, compile, i, max, feedback)
    decreases max - i
  {
    if i < max {
      var prompt := FullPrompt(basePrompt, feedback);
      var output := compile(generate(i, prompt));
      var pass := Pass(prompt, generate(i, prompt), output);
      if Succeeded(output) {
        assert PassesFrom(basePrompt, generate, compile, i, max, feedback) == [pass];
      } else {
        var rest := PassesFrom(basePrompt, generate, compile, i + 1, max, RetryFeedback(output));
        RunIsPasses(basePrompt, generate, compile, i + 1, max, RetryFeedback(output), log + [pass]);
        assert PassesFrom(basePrompt, generate, compile, i, max, feedback) == [pass] + rest;
        assert (log + [pass]) + rest == log + ([pass] + rest);
      }
    }
  }

  /** The source of the last pass logged, "" before the first. */
  function LastSource(log: seq<Pass>): string
  {
    if |log| == 0 then "" else log[|log| - 1].source
  }

  /**
   * `iterative_evaluation`: `generate(i, prompt)` stands for the model's answer
   * in pass `i`; the printed transcript is returned as `log`. The result is
   * the source of the last pass made, "" when none is made.
   */
  method IterativeEvaluation(
    basePrompt: string, maxIterations: int,
    generate: (nat, string) -> string, compile: string -> string)
    returns (contractSource: string, log: seq<Pass>)
    ensures log == Passes(basePrompt, maxIterations, generate, compile)
    ensures contractSource == LastSource(log)
    ensures 0 < |log| <= maxIterations || (maxIterations <= 0 && log == [] && contractSource == "")
  {
    var feedback := InitialFeedback;
    contractSource := "";
    log := [];
    var max := Bound(maxIterations);
    ghost var all := Run(basePrompt, generate, compile, 0, max, InitialFeedback, []);
    var i := 0;
    while i < max
      invariant 0 <= i <= max
      invariant Run(basePrompt, generate, compile, i, max, feedback, log) == all
      invariant contractSource == LastSource(log)
      decreases max - i
    {
      var fullPrompt := FullPrompt(basePrompt, feedback);
      contractSource := generate(i, fullPrompt);
      var compilerFeedback := compile(contractSource);
      LastSourceSnoc(log, Pass(fullPrompt, contractSource, compilerFeedback));
      log := log + [Pass(fullPrompt, contractSource, compilerFeedback)];
      if Succeeded(compilerFeedback) {
        break;
      }
      feedback := RetryFeedback(compilerFeedback);
      i := i + 1;
    }
    RunIsPasses(basePrompt, generate, compile, 0, max, InitialFeedback, []);
    PassCount(basePrompt, maxIterations, generate, compile);
    assert [] + Passes(basePrompt, maxIterations, generate, compile) == Passes(basePrompt, maxIterations, generate, compile);
  }

  lemma LastSourceSnoc(log: seq<Pass>, p: Pass)
    ensures LastSource(log + [p]) == p.source
  {
  }

  // ---------------------------------------------------------------------------
  // Properties of the passes
  // ---------------------------------------------------------------------------

  /** At most `max - i` passes, and at least one while the bound allows. */
  lemma {:induction false} PassesFromLength(
    basePrompt: string, generate: (nat, string) -> string, compile: string -> string,
    i: nat, max: nat, feedback: string)
    requires i <= max
    ensures var ps := PassesFrom(basePrompt, generate, compile, i, max, feedback);
      |ps| <= max - i && (|ps| == 0 <==> i >= max)
    decreases max - i
  {
    if i < max {
      var prompt := FullPrompt(basePrompt, feedback);
      var output := compile(generate(i, prompt));
      var rest := PassesFrom(basePrompt, generate, compile, i + 1, max, RetryFeedback(output));
      var ps := PassesFrom(basePrompt, generate, compile, i, max, feedback);
      assert ps == [Pass(prompt, generate(i, prompt), output)] + if Succeeded(output) then [] else rest;
      if !Succeeded(output) {
        PassesFromLength(basePrompt, generate, compile, i + 1, max, RetryFeedback(output));
      }
    }
  }

  /**
   * Pass `k` of a run entered at pass `i` is generated with index `i + k`
   * from its own prompt, and its output is the compiler's output on its source.
   */
  lemma {:induction false} PassesFromCalls(
    basePrompt: string, generate: (nat, string) -> string, compile: string -> string,
    i: nat, max: nat, feedback: string, k: nat)
    requires k < |PassesFrom(basePrompt, generate, compile, i, max, feedback)|
    ensures var p := PassesFrom(basePrompt, generate, compile, i, max, feedback)[k];
      p.source == generate(i + k, p.prompt) && p.output == compile(p.source)
    decreases max - i
  {
    var ps := PassesFrom(basePrompt, generate, compile, i, max, feedback);
    var prompt := FullPrompt(basePrompt, feedback);
    var output := compile(generate(i, prompt));
    PassesFromUnfold(basePrompt, generate, compile, i, max, feedback);
    if k == 0 {
      assert ps[0] == Pass(prompt, generate(i, prompt), output);
    } else {
      var rest := PassesFrom(basePrompt, generate, compile, i + 1, max, RetryFeedback(output));
      assert !Succeeded(output);
      assert ps[k] == rest[k - 1];
      PassesFromCalls(basePrompt, generate, compile, i + 1, max, RetryFeedback(output), k - 1);
    }
  }

  /**
   * The first pass of a run is prompted with the feedback it was entered
   * with, every later one with the previous pass's compiler output.
   */
  lemma {:induction false} PassesFromPrompts(
    basePrompt: string, generate: (nat, string) -> string, compile: string -> string,
    i: nat, max: nat, feedback: string)
    ensures var ps := PassesFrom(basePrompt, generate, compile, i, max, feedback);
      (|ps| > 0 ==> ps[0].prompt == FullPrompt(basePrompt, feedback))
      && forall k :: 0 < k < |ps| ==> ps[k].prompt == FullPrompt(basePrompt, RetryFeedback(ps[k - 1].output))
    decreases max - i
  {
    if i < max {
      var ps := PassesFrom(basePrompt, generate, compile, i, max, feedback);
      var output := compile(generate(i, FullPrompt(basePrompt, feedback)));
      var fb := RetryFeedback(output);
      var rest := PassesFrom(basePrompt, generate, compile, i + 1, max, fb);
      PassesFromUnfold(basePrompt, generate, compile, i, max, feedback);
      if !Succeeded(output) {
        PassesFromPrompts(basePrompt, generate, compile, i + 1, max, fb);
        assert ps == [ps[0]] + rest && ps[0].output == output;
        forall k | 0 < k < |ps|
          ensures ps[k].prompt == FullPrompt(basePrompt, RetryFeedback(ps[k - 1].output))
        {
          assert ps[k] == rest[k - 1];
          if k > 1 {
            assert ps[k - 1] == rest[k - 2];
          }
        }
      }
    }
  }

  /** The run stops at its first successful pass: every pass before the last failed. */
  lemma {:induction false} PassesFromFailBeforeLast(
    basePrompt: string, generate: (nat, string) -> string, compile: string -> string,
    i: nat, max: nat, feedback: string)
    ensures var ps := PassesFrom(basePrompt, generate, compile, i, max, feedback);
      forall k :: 0 <= k < |ps| - 1 ==> !Succeeded(ps[k].output)
    decreases max - i
  {
    if i < max {
      var ps := PassesFrom(basePrompt, generate, compile, i, max, feedback);
      var output := compile(generate(i, FullPrompt(basePrompt, feedback)));
      var fb := RetryFeedback(output);
      var rest := PassesFrom(basePrompt, generate, compile, i + 1, max, fb);
      PassesFromUnfold(basePrompt, generate, compile, i, max, feedback);
      if !Succeeded(output) {
        PassesFromFailBeforeLast(basePrompt, generate, compile, i + 1, max, fb);
        assert ps == [ps[0]] + rest && ps[0].output == output;
        forall k | 0 < k < |ps| - 1 ensures !Succeeded(ps[k].output) {
          assert ps[k] == rest[k - 1];
        }
      }
    }
  }

  /** A run that ends with a failed pass made all `max - i` passes. */
  lemma {:induction false} PassesFromExhausted(
    basePrompt: string, generate: (nat, string) -> string, compile: string -> string,
    i: nat, max: nat, feedback: string)
    requires i <= max
    ensures var ps := PassesFrom(basePrompt, generate, compile, i, max, feedback);
      |ps| > 0 && !Succeeded(ps[|ps| - 1].output) ==> |ps| == max - i
    decreases max - i
  {
    if i < max {
      var ps := PassesFrom(basePrompt, generate, compile, i, max, feedback);
      var output := compile(generate(i, FullPrompt(basePrompt, feedback)));
      var fb := RetryFeedback(output);
      var rest := PassesFrom(basePrompt, generate, compile, i + 1, max, fb);
      PassesFromUnfold(basePrompt, generate, compile, i, max, feedback);
      if !Succeeded(output) {
        assert |ps| == 1 + |rest|;
        if |rest| > 0 {
          assert ps[|ps| - 1] == rest[|rest| - 1];
          PassesFromExhausted(basePrompt, generate, compile, i + 1, max, fb);
        } else {
          PassesFromLength(basePrompt, generate, compile, i + 1, max, fb);
        }
      }
    }
  }

  /** One unfolding of `PassesFrom`: the first pass and what follows it. */
  lemma PassesFromUnfold(
    basePrompt: string, generate: (nat, string) -> string, compile: string -> string,
    i: nat, max: nat, feedback: string)
    requires i < max
    ensures var prompt := FullPrompt(basePrompt, feedback);
      var output := compile(generate(i, prompt));
      PassesFrom(basePrompt, generate, compile, i, max, feedback)
        == [Pass(prompt, generate(i, prompt), output)]
           + if Succeeded(output) then [] else PassesFrom(basePrompt, generate, compile, i + 1, max, RetryFeedback(output))
  {
  }

  /** `iterative_evaluation` makes at most `max_iterations` passes, none when that is not positive. */
  lemma PassCount(
    basePrompt: string, maxIterations: int,
    generate: (nat, string) -> string, compile: string -> string)
    ensures |Passes(basePrompt, maxIterations, generate, compile)| <= Bound(maxIterations)
    ensures Passes(basePrompt, maxIterations, generate, compile) == [] <==> maxIterations <= 0
  {
    PassesFromLength(basePrompt, generate, compile, 0, Bound(maxIterations), InitialFeedback);
  }

  /**
   * Each pass `k` asks the generator once, with index `k`, and the compiler
   * once, on the generated source.
   */
  lemma PassCalls(
    basePrompt: string, maxIterations: int,
    generate: (nat, string) -> string, compile: string -> string, k: nat)
    requires k < |Passes(basePrompt, maxIterations, generate, compile)|
    ensures var p := Passes(basePrompt, maxIterations, generate, compile)[k];
      p.source == generate(k, p.prompt) && p.output == compile(p.source)
  {
    PassesFromCalls(basePrompt, generate, compile, 0, Bound(maxIterations), InitialFeedback, k);
  }

  /**
   * The first prompt carries the initial feedback; every later prompt carries
   * the previous pass's compiler output and no earlier one.
   */
  lemma PromptChain(
    basePrompt: string, maxIterations: int,
    generate: (nat, string) -> string, compile: string -> string)
    ensures var ps := Passes(basePrompt, maxIterations, generate, compile);
      (|ps| > 0 ==> ps[0].prompt == basePrompt + "\n\nFeedback: Initial run")
      && forall k :: 0 < k < |ps| ==> ps[k].prompt == FullPrompt(basePrompt, RetryFeedback(ps[k - 1].output))
  {
    PassesFromPrompts(basePrompt, generate, compile, 0, Bound(maxIterations), InitialFeedback);
    InitialPrompt(basePrompt);
  }

  /** The first prompt spelled out. */
  lemma InitialPrompt(basePrompt: string)
    ensures FullPrompt(basePrompt, InitialFeedback) == basePrompt + "\n\nFeedback: Initial run"
  {
    InitialFeedbackLine();
    assert FullPrompt(basePrompt, InitialFeedback) == basePrompt + ("\n\nFeedback: " + InitialFeedback);
  }

  lemma InitialFeedbackLine()
    ensures "\n\nFeedback: " + InitialFeedback == "\n\nFeedback: Initial run"
  {
  }

  /**
   * Early exit: no pass follows a successful one, and the run ends before
   * the bound only after a success.
   */
  lemma EarlyExit(
    basePrompt: string, maxIterations: int,
    generate: (nat, string) -> string, compile: string -> string)
    ensures var ps := Passes(basePrompt, maxIterations, generate, compile);
      (forall k :: 0 <= k < |ps| && Succeeded(ps[k].output) ==> k == |ps| - 1)
      && (0 < |ps| < Bound(maxIterations) ==> Succeeded(ps[|ps| - 1].output))
  {
    PassesFromFailBeforeLast(basePrompt, generate, compile, 0, Bound(maxIterations), InitialFeedback);
    PassesFromExhausted(basePrompt, generate, compile, 0, Bound(maxIterations), InitialFeedback);
  }

  /**
   * With the simulated compiler: a clean source ends the run at its pass, so
   * the first clean pass `k` makes the run exactly `k + 1` passes long; if
   * every source mentions "error", all `max_iterations` passes are made.
   */
  lemma SimulatedRun(basePrompt: string, maxIterations: int, generate: (nat, string) -> string)
    ensures var ps := Passes(basePrompt, maxIterations, generate, CompileContract);
      (forall k :: 0 <= k < |ps| && !Contains(Lower(ps[k].source), "error") ==> |ps| == k + 1)
      && ((forall k :: 0 <= k < |ps| ==> Contains(Lower(ps[k].source), "error"))
          ==> |ps| == Bound(maxIterations))
  {
    var ps := Passes(basePrompt, maxIterations, generate, CompileContract);
    PassCount(basePrompt, maxIterations, generate, CompileContract);
    EarlyExit(basePrompt, maxIterations, generate, CompileContract);
    forall k | 0 <= k < |ps|
      ensures ps[k].output == CompileContract(ps[k].source)
      ensures Succeeded(ps[k].output) <==> !Contains(Lower(ps[k].source), "error")
    {
      PassCalls(basePrompt, maxIterations, generate, CompileContract, k);
      CompileOutcome(ps[k].source);
    }
    PassesFromExhausted(basePrompt, generate, CompileContract, 0, Bound(maxIterations), InitialFeedback);
  }

  /**
   * Two passes allowed, the first fails and the second succeeds: exactly two
   * compiler calls, and the result is the second source.
   */
  lemma FailThenSucceed(basePrompt: string, generate: (nat, string) -> string, compile: string -> string)
    requires !Succeeded(compile(generate(0, FullPrompt(basePrompt, InitialFeedback))))
    requires
      var first := compile(generate(0, FullPrompt(basePrompt, InitialFeedback)));
      Succeeded(compile(generate(1, FullPrompt(basePrompt, RetryFeedback(first)))))
    ensures var ps := Passes(basePrompt, 2, generate, compile);
      |ps| == 2 && ps[1].source == generate(1, ps[1].prompt)
      && ps[1].prompt == FullPrompt(basePrompt, RetryFeedback(ps[0].output))
      && LastSource(ps) == ps[1].source
  {
    var first := compile(generate(0, FullPrompt(basePrompt, InitialFeedback)));
    var fb := RetryFeedback(first);
    var second := compile(generate(1, FullPrompt(basePrompt, fb)));
    assert PassesFrom(basePrompt, generate, compile, 2, 2, RetryFeedback(second)) == [];
    assert |PassesFrom(basePrompt, generate, compile, 1, 2, fb)| == 1;
  }
}
