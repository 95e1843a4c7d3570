/**
 * The batch runner (`process_targets`): expand the input paths into the list
 * of supported image files, then trim them one by one, reporting progress,
 * polling for cancellation before each file and collecting one error line
 * per failed file.
 *
 * The file system is a value: a map from path to what `os.path.isdir` /
 * `os.path.isfile` find there, a directory carrying the sequence `os.walk`
 * yields for it. The cancellation predicate, the progress callback and the
 * outcome of each `trim_whitespace` call come from outside.
 */
module Batch {
  import opened Paths

  /** One item of `os.walk`: a directory and the names of the files directly in it. */
  datatype WalkStep = WalkStep(root: string, files: seq<string>)

  /** What a path names: a regular file, or a directory with its walk. */
  datatype Node = RegularFile | Directory(walk: seq<WalkStep>)

  type FileSystem = map<string, Node>

  /** The settings every file of a batch is trimmed with. */
  datatype Settings = Settings(colorType: string, direction: string, keepMarginPercent: int)

  /** The arguments of one `trim_whitespace` call: source, output path and settings. */
  datatype TrimCall = TrimCall(src: string, out: string, settings: Settings)

  /** How a call of `trim_whitespace` ended: normally, or with an exception and its message. */
  datatype Outcome = Success | Failure(message: string)

  /** One call of the progress callback. */
  datatype Progress = Progress(done: nat, total: nat)

  predicate IsDir(fs: FileSystem, p: string) { p in fs && fs[p].Directory? }
  predicate IsFile(fs: FileSystem, p: string) { p in fs && fs[p].RegularFile? }

  // ---------------------------------------------------------------------
  // Target collection.
  // ---------------------------------------------------------------------

  /** The supported files of one walk step, joined to its directory, in order. */
  function FilesTargets(root: string, files: seq<string>): seq<string>
  {
    if files == [] then []
    else
      var f := files[|files| - 1];
      FilesTargets(root, files[..|files| - 1]) + (if HasSupportedExt(f) then [Join(root, f)] else [])
  }

  /** `collect_dir`: the supported files of a whole walk, in walk order. */
  function WalkTargets(walk: seq<WalkStep>): seq<string>
  {
    if walk == [] then []
    else
      var step := walk[|walk| - 1];
      WalkTargets(walk[..|walk| - 1]) + FilesTargets(step.root, step.files)
  }

  /** The targets one input path contributes; anything neither a directory nor a file adds nothing. */
  function InputTargets(fs: FileSystem, p: string): seq<string>
  {
    if IsDir(fs, p) then WalkTargets(fs[p].walk)
    else if IsFile(fs, p) && HasSupportedExt(p) then [p]
    else []
  }

  /** The target list of a batch, in discovery order. */
  function Targets(fs: FileSystem, inputs: seq<string>): seq<string>
  {
    if inputs == [] then []
    else Targets(fs, inputs[..|inputs| - 1]) + InputTargets(fs, inputs[|inputs| - 1])
  }

  /** The inner loop of `collect_dir`: append the supported files of one walk step. */
  method CollectFiles(targets: seq<string>, root: string, files: seq<string>) returns (extended: seq<string>)
    ensures extended == targets + FilesTargets(root, files)
  {
    extended := targets;
    var j := 0;
    while j < |files|
      invariant 0 <= j <= |files|
      invariant extended == targets + FilesTargets(root, files[..j])
    {
      var f := files[j];
      assert files[..j + 1][..j] == files[..j] && files[..j + 1][j] == f;
      assert FilesTargets(root, files[..j + 1]) ==
             FilesTargets(root, files[..j]) + (if HasSupportedExt(f) then [Join(root, f)] else []);
      if HasSupportedExt(f) {
        extended := extended + [Join(root, f)];
      }
      j := j + 1;
    }
    assert files[..|files|] == files;
  }

  /** `collect_dir(d)`: append the supported files of a walk to `targets`. */
  method CollectDir(targets: seq<string>, walk: seq<WalkStep>) returns (extended: seq<string>)
    ensures extended == targets + WalkTargets(walk)
  {
    extended := targets;
    var i := 0;
    while i < |walk|
      invariant 0 <= i <= |walk|
      invariant extended == targets + WalkTargets(walk[..i])
    {
      var step := walk[i];
      assert walk[..i + 1][..i] == walk[..i] && walk[..i + 1][i] == step;
      assert WalkTargets(walk[..i + 1]) == WalkTargets(walk[..i]) + FilesTargets(step.root, step.files);
      extended := CollectFiles(extended, step.root, step.files);
      i := i + 1;
    }
    assert walk[..|walk|] == walk;
  }

  /** The first loop of `process_targets`: expand the inputs into targets. */
  method CollectTargets(inputs: seq<string>, fs: FileSystem) returns (targets: seq<string>)
    ensures targets == Targets(fs, inputs)
  {
    targets := [];
    var i := 0;
    while i < |inputs|
      invariant 0 <= i <= |inputs|
      invariant targets == Targets(fs, inputs[..i])
    {
      var p := inputs[i];
      if IsDir(fs, p) {
        targets := CollectDir(targets, fs[p].walk);
      } else if IsFile(fs, p) && HasSupportedExt(p) {
        targets := targets + [p];
      }
      assert inputs[..i + 1][..i] == inputs[..i];
      i := i + 1;
    }
    assert inputs[..|inputs|] == inputs;
  }

  // ---------------------------------------------------------------------
  // The processing loop.
  // ---------------------------------------------------------------------

  /**
   * How many files are attempted when `isCancelled(j)` is the answer of the
   * check made before file `j` (counting from 1), starting after file `k`.
   */
  function Attempted(total: nat, isCancelled: nat -> bool, k: nat): (n: nat)
    requires k <= total
    ensures k <= n <= total
    ensures forall j :: k < j <= n ==> !isCancelled(j)
    ensures n < total ==> isCancelled(n + 1)
    decreases total - k
  {
    if k == total || isCancelled(k + 1) then k else Attempted(total, isCancelled, k + 1)
  }

  /** The error line of a failed file: `f"{src}: {e}"`. */
  function ErrorLine(src: string, message: string): string
  {
    src + ": " + message
  }

  /** The `trim_whitespace` calls made for the files `srcs`, each writing to its `Remake` path. */
  function Calls(srcs: seq<string>, settings: Settings): seq<TrimCall>
  {
    seq(|srcs|, i requires 0 <= i < |srcs| => TrimCall(srcs[i], OutputPath(srcs[i]), settings))
  }

  /** The error lines of the calls `calls`, in order: `"<src>: <message>"` per failure. */
  function ErrorLog(calls: seq<TrimCall>, trim: TrimCall -> Outcome): seq<string>
  {
    if calls == [] then []
    else
      var call := calls[|calls| - 1];
      ErrorLog(calls[..|calls| - 1], trim)
        + match trim(call)
          case Success => []
          case Failure(message) => [ErrorLine(call.src, message)]
  }

  /** Extending the attempted files by one adds that file's call. */
  lemma CallsStep(srcs: seq<string>, settings: Settings, i: nat)
    requires i < |srcs|
    ensures Calls(srcs[..i + 1], settings) == Calls(srcs[..i], settings) + [TrimCall(srcs[i], OutputPath(srcs[i]), settings)]
  {
    var a, b := Calls(srcs[..i + 1], settings), Calls(srcs[..i], settings) + [TrimCall(srcs[i], OutputPath(srcs[i]), settings)];
    assert |a| == |b|;
    forall k | 0 <= k < |a| ensures a[k] == b[k] {
      assert srcs[..i + 1][k] == srcs[k];
      if k < i {
        assert srcs[..i][k] == srcs[k];
      }
    }
  }

  /**
   * One pass of the `try` block for file `i`: build the output path, call
   * `trim_whitespace`, and add the error line when the call fails.
   */
  method TrimNext(targets: seq<string>, i: nat, settings: Settings, trim: TrimCall -> Outcome,
                  errors: seq<string>, ghost calls: seq<TrimCall>)
    returns (errors': seq<string>, ghost calls': seq<TrimCall>)
    requires i < |targets|
    requires calls == Calls(targets[..i], settings) && errors == ErrorLog(calls, trim)
    ensures calls' == Calls(targets[..i + 1], settings)
    ensures errors' == ErrorLog(Calls(targets[..i + 1], settings), trim)
  {
    var src := targets[i];
    var out := OutputPath(src);
    var call := TrimCall(src, out, settings);
    var outcome := trim(call);
    CallsStep(targets, settings, i);
    calls' := calls + [call];
    assert calls'[..|calls|] == calls;
    errors' := errors;
    if outcome.Failure? {
      errors' := errors' + [ErrorLine(src, outcome.message)];
    }
  }

  /**
   * The processing loop of `process_targets` over the collected targets:
   * report `(0, total)`, then for each file check for cancellation, trim it,
   * and report `(i, total)`.
   */
  method RunTargets(targets: seq<string>, settings: Settings, isCancelled: nat -> bool, trim: TrimCall -> Outcome)
    returns (errors: seq<string>, progress: seq<Progress>, ghost calls: seq<TrimCall>)
    ensures var n := Attempted(|targets|, isCancelled, 0);
            && |progress| == n + 1
            && (forall i :: 0 <= i < |progress| ==> progress[i] == Progress(i, |targets|))
            && calls == Calls(targets[..n], settings)
            && errors == ErrorLog(Calls(targets[..n], settings), trim)
  {
    var total := |targets|;
    progress := [Progress(0, total)];
    errors := [];
    calls := [];
    var i := 0;
    while i < total
      invariant 0 <= i <= total
      invariant Attempted(total, isCancelled, i) == Attempted(total, isCancelled, 0)
      invariant |progress| == i + 1
      invariant forall k :: 0 <= k <= i ==> progress[k] == Progress(k, total)
      invariant calls == Calls(targets[..i], settings)
      invariant errors == ErrorLog(calls, trim)
    {
      if isCancelled(i + 1) {
        break;
      }
      errors, calls := TrimNext(targets, i, settings, trim, errors, calls);
      i := i + 1;
      progress := progress + [Progress(i, total)];
    }
  }

  /**
   * `process_targets(inputs, color_type, direction, keep_margin_percent, progress_cb, is_cancelled)`.
   * Returns the error list and the calls made to the progress callback.
   */
  method ProcessTargets(inputs: seq<string>, colorType: string, direction: string, keepMarginPercent: int,
                        fs: FileSystem, isCancelled: nat -> bool, trim: TrimCall -> Outcome)
    returns (errors: seq<string>, progress: seq<Progress>, ghost calls: seq<TrimCall>)
    ensures var targets := Targets(fs, inputs);
            var n := Attempted(|targets|, isCancelled, 0);
            && |progress| == n + 1
            && (forall i :: 0 <= i < |progress| ==> progress[i] == Progress(i, |targets|))
            && calls == Calls(targets[..n], Settings(colorType, direction, keepMarginPercent))
            && errors == ErrorLog(Calls(targets[..n], Settings(colorType, direction, keepMarginPercent)), trim)
  {
    var targets := CollectTargets(inputs, fs);
    errors, progress, calls := RunTargets(targets, Settings(colorType, direction, keepMarginPercent), isCancelled, trim);
  }

  // ---------------------------------------------------------------------
  // What the runner promises.
  // ---------------------------------------------------------------------

  /** A walk step contributes exactly its supported files, joined to the step's directory. */
  lemma {:induction false} FilesTargetsExactly(root: string, files: seq<string>, t: string)
    ensures t in FilesTargets(root, files) <==> exists f :: f in files && HasSupportedExt(f) && t == Join(root, f)
    decreases |files|
  {
    if files != [] {
      var init, f := files[..|files| - 1], files[|files| - 1];
      var last := if HasSupportedExt(f) then [Join(root, f)] else [];
      assert files == init + [f];
      assert FilesTargets(root, files) == FilesTargets(root, init) + last;
      FilesTargetsExactly(root, init, t);
      if t in FilesTargets(root, files) {
        if t in last {
          assert f in files && HasSupportedExt(f) && t == Join(root, f);
        } else {
          var g :| g in init && HasSupportedExt(g) && t == Join(root, g);
          assert g in files;
        }
      }
      if exists g :: g in files && HasSupportedExt(g) && t == Join(root, g) {
        var g :| g in files && HasSupportedExt(g) && t == Join(root, g);
        if g == f {
          assert t in last;
        } else {
          assert g in init;
        }
      }
    }
  }

  /** Every target of a walk carries a supported extension. */
  lemma {:induction false} WalkTargetsSupported(walk: seq<WalkStep>)
    ensures forall t :: t in WalkTargets(walk) ==> HasSupportedExt(t)
    decreases |walk|
  {
    if walk != [] {
      var step := walk[|walk| - 1];
      WalkTargetsSupported(walk[..|walk| - 1]);
      forall t | t in FilesTargets(step.root, step.files) ensures HasSupportedExt(t) {
        FilesTargetsExactly(step.root, step.files, t);
        var f :| f in step.files && HasSupportedExt(f) && t == Join(step.root, f);
        JoinKeepsSupportedExt(step.root, f);
      }
    }
  }

  /** Only paths whose lower-cased name ends in a supported extension become targets. */
  lemma {:induction false} TargetsSupported(fs: FileSystem, inputs: seq<string>)
    ensures forall t :: t in Targets(fs, inputs) ==> HasSupportedExt(t)
    decreases |inputs|
  {
    if inputs != [] {
      TargetsSupported(fs, inputs[..|inputs| - 1]);
      var p := inputs[|inputs| - 1];
      if IsDir(fs, p) {
        WalkTargetsSupported(fs[p].walk);
      }
    }
  }

  /** Targets keep discovery order: the inputs' contributions are concatenated in input order. */
  lemma {:induction false} TargetsConcat(fs: FileSystem, a: seq<string>, b: seq<string>)
    ensures Targets(fs, a + b) == Targets(fs, a) + Targets(fs, b)
    decreases |b|
  {
    if b != [] {
      var init, p := b[..|b| - 1], b[|b| - 1];
      assert (a + b)[..|a + b| - 1] == a + init;
      TargetsConcat(fs, a, init);
    } else {
      assert a + b == a;
    }
  }

  /** The processing loop stops at the first positive cancellation check, and only there. */
  lemma CancellationStopsAt(total: nat, isCancelled: nat -> bool, k: nat)
    requires k < total && isCancelled(k + 1)
    requires forall j :: 1 <= j <= k ==> !isCancelled(j)
    ensures Attempted(total, isCancelled, 0) == k
  {
  }

  /** Without a positive cancellation check every target is attempted. */
  lemma NoCancellationAttemptsAll(total: nat, isCancelled: nat -> bool)
    requires forall j :: 1 <= j <= total ==> !isCancelled(j)
    ensures Attempted(total, isCancelled, 0) == total
  {
  }

  /** Each call of the run reads its source and writes to the `Remake` sub-directory beside it, under the same name. */
  lemma CallsWriteToRemake(srcs: seq<string>, settings: Settings, i: nat)
    requires i < |srcs|
    ensures var call := Calls(srcs, settings)[i];
            && call.src == srcs[i] && call.settings == settings
            && Basename(call.out) == Basename(srcs[i])
            && Extension(call.out) == Extension(srcs[i])
            && Dirname(call.out) == Join(Dirname(srcs[i]), RemakeDir)
            && Basename(Dirname(call.out)) == RemakeDir
            && Dirname(Dirname(call.out)) == Dirname(srcs[i])
  {
    OutputPathLayout(srcs[i]);
  }

  /** An empty error list means that every attempted call ended without failure. */
  lemma {:induction false} NoErrorsIffAllSucceeded(calls: seq<TrimCall>, trim: TrimCall -> Outcome)
    ensures ErrorLog(calls, trim) == [] <==> forall i :: 0 <= i < |calls| ==> trim(calls[i]) == Success
    decreases |calls|
  {
    if calls != [] {
      var init := calls[..|calls| - 1];
      NoErrorsIffAllSucceeded(init, trim);
      assert forall i :: 0 <= i < |init| ==> init[i] == calls[i];
    }
  }

  /** The number of attempted calls that failed. */
  function FailureCount(calls: seq<TrimCall>, trim: TrimCall -> Outcome): nat
  {
    if calls == [] then 0
    else FailureCount(calls[..|calls| - 1], trim) + (if trim(calls[|calls| - 1]).Failure? then 1 else 0)
  }

  /** There is exactly one error line per failed call. */
  lemma {:induction false} ErrorLogCountsFailures(calls: seq<TrimCall>, trim: TrimCall -> Outcome)
    ensures |ErrorLog(calls, trim)| == FailureCount(calls, trim)
    decreases |calls|
  {
    if calls != [] {
      ErrorLogCountsFailures(calls[..|calls| - 1], trim);
    }
  }

  /** There are never more error lines than attempted calls. */
  lemma {:induction false} ErrorLogLength(calls: seq<TrimCall>, trim: TrimCall -> Outcome)
    ensures |ErrorLog(calls, trim)| <= |calls|
    decreases |calls|
  {
    if calls != [] {
      ErrorLogLength(calls[..|calls| - 1], trim);
    }
  }

  /** Every error line names the source of an attempted call that failed, with its message. */
  lemma {:induction false} ErrorLinesAreFailures(calls: seq<TrimCall>, trim: TrimCall -> Outcome, e: string)
    requires e in ErrorLog(calls, trim)
    ensures exists i :: 0 <= i < |calls| && trim(calls[i]).Failure? && e == ErrorLine(calls[i].src, trim(calls[i]).message)
    decreases |calls|
  {
    var init, last := calls[..|calls| - 1], calls[|calls| - 1];
    var outcome := trim(last);
    var tail := if outcome.Failure? then [ErrorLine(last.src, outcome.message)] else [];
    assert ErrorLog(calls, trim) == ErrorLog(init, trim) + tail;
    if e in ErrorLog(init, trim) {
      ErrorLinesAreFailures(init, trim, e);
      var i :| 0 <= i < |init| && trim(init[i]).Failure? && e == ErrorLine(init[i].src, trim(init[i]).message);
      assert init[i] == calls[i];
    } else {
      assert e in tail;
      assert calls[|init|] == last;
    }
  }

  /** Every attempted call that failed has its error line. */
  lemma {:induction false} FailuresAreReported(calls: seq<TrimCall>, trim: TrimCall -> Outcome, i: nat)
    requires i < |calls| && trim(calls[i]).Failure?
    ensures ErrorLine(calls[i].src, trim(calls[i]).message) in ErrorLog(calls, trim)
    decreases |calls|
  {
    var init := calls[..|calls| - 1];
    if i < |init| {
      assert init[i] == calls[i];
      FailuresAreReported(init, trim, i);
    }
  }
}
