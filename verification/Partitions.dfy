/**
  Splitting a hook's filenames into command lines (`Partitions` in run.rs, Unix branches).

  A batch may hold at most `maxPerBatch` files and at most `budget` bytes of argument space.  The
  iterator is greedy; `NoCutIsShorter` shows that greedy is optimal among all consecutive cuts.
 */
module Partitions {
  import opened Wrappers

  type OsStr = seq<byte>

  const POINTER_SIZE := 8
  const ARG_HEADROOM := 2048

  function ArgSize(arg: OsStr): nat {
    POINTER_SIZE + |arg| + 1
  }

  function Total(args: seq<OsStr>): nat {
    if args == [] then 0 else Total(args[..|args| - 1]) + ArgSize(args[|args| - 1])
  }

  lemma {:induction false} TotalConcat(a: seq<OsStr>, b: seq<OsStr>)
    ensures Total(a + b) == Total(a) + Total(b)
  {
    if b == [] {
      assert a + b == a;
    } else {
      assert (a + b)[..|a + b| - 1] == a + b[..|b| - 1];
      TotalConcat(a, b[..|b| - 1]);
    }
  }

  lemma TotalOne(arg: OsStr)
    ensures Total([arg]) == ArgSize(arg)
  {
    var none: seq<OsStr> := [];
    assert [arg][..0] == none;
  }

  // ---- batches ----

  /** `files[i..j]` is one admissible command line. */
  predicate Fits(files: seq<OsStr>, i: nat, j: nat, budget: nat, maxPerBatch: nat)
    requires i <= j <= |files|
  {
    j - i <= maxPerBatch && Total(files[i..j]) <= budget
  }

  lemma WindowTotal(files: seq<OsStr>, i: nat, m: nat, j: nat)
    requires i <= m <= j <= |files|
    ensures Total(files[i..j]) == Total(files[i..m]) + Total(files[m..j])
  {
    assert files[i..m] + files[m..j] == files[i..j];
    TotalConcat(files[i..m], files[m..j]);
  }

  lemma SubwindowFits(files: seq<OsStr>, i: nat, i': nat, j': nat, j: nat, budget: nat, maxPerBatch: nat)
    requires i <= i' <= j' <= j <= |files|
    requires Fits(files, i, j, budget, maxPerBatch)
    ensures Fits(files, i', j', budget, maxPerBatch)
  {
    WindowTotal(files, i, i', j);
    WindowTotal(files, i', j', j);
  }

  /** Nothing longer than `files[i..j]` fits. */
  predicate Maximal(files: seq<OsStr>, i: nat, j: nat, budget: nat, maxPerBatch: nat)
    requires i <= j <= |files|
  {
    && Fits(files, i, j, budget, maxPerBatch)
    && (j < |files| ==> !Fits(files, i, j + 1, budget, maxPerBatch))
  }

  function Extend(files: seq<OsStr>, i: nat, j: nat, budget: nat, maxPerBatch: nat): (end: nat)
    requires i <= j <= |files| && Fits(files, i, j, budget, maxPerBatch)
    ensures j <= end <= |files| && Maximal(files, i, end, budget, maxPerBatch)
    decreases |files| - j
  {
    if j < |files| && Fits(files, i, j + 1, budget, maxPerBatch)
    then Extend(files, i, j + 1, budget, maxPerBatch)
    else j
  }

  /** Where the greedy batch that starts at `i` ends. */
  function GreedyEnd(files: seq<OsStr>, i: nat, budget: nat, maxPerBatch: nat): (end: nat)
    requires i <= |files|
    ensures i <= end <= |files| && Maximal(files, i, end, budget, maxPerBatch)
  {
    assert files[i..i] == [];
    Extend(files, i, i, budget, maxPerBatch)
  }

  lemma GreedyEndIsLongest(files: seq<OsStr>, i: nat, j: nat, budget: nat, maxPerBatch: nat)
    requires i <= j <= |files|
    ensures Fits(files, i, j, budget, maxPerBatch) <==> j <= GreedyEnd(files, i, budget, maxPerBatch)
  {
    var end := GreedyEnd(files, i, budget, maxPerBatch);
    if Fits(files, i, j, budget, maxPerBatch) && end < j {
      SubwindowFits(files, i, i, end + 1, j, budget, maxPerBatch);
    }
    if j <= end {
      SubwindowFits(files, i, i, j, end, budget, maxPerBatch);
    }
  }

  /** No single file is too long for a command line of its own. */
  predicate AllFit(files: seq<OsStr>, budget: nat) {
    forall i | 0 <= i < |files| :: ArgSize(files[i]) <= budget
  }

  lemma StuckIffTooLong(files: seq<OsStr>, i: nat, budget: nat, maxPerBatch: nat)
    requires i < |files| && maxPerBatch >= 1
    ensures GreedyEnd(files, i, budget, maxPerBatch) == i <==> ArgSize(files[i]) > budget
  {
    assert files[i..i + 1] == [files[i]] && files[i..i] == [];
    TotalOne(files[i]);
    GreedyEndIsLongest(files, i, i + 1, budget, maxPerBatch);
  }

  /** What the iterator yields from index `i` on, and whether it then panics. */
  datatype Yield = Yield(batches: seq<seq<OsStr>>, panics: bool)

  function Greedy(files: seq<OsStr>, i: nat, budget: nat, maxPerBatch: nat): Yield
    requires i <= |files|
    decreases |files| - i
  {
    var end := GreedyEnd(files, i, budget, maxPerBatch);
    if i == |files| then Yield([], false)
    else if end == i then Yield([], true)
    else
      var rest := Greedy(files, end, budget, maxPerBatch);
      Yield([files[i..end]] + rest.batches, rest.panics)
  }

  function Batches(files: seq<OsStr>, budget: nat, maxPerBatch: nat): Yield {
    if files == [] then Yield([[]], false) else Greedy(files, 0, budget, maxPerBatch)
  }

  function Flatten(batches: seq<seq<OsStr>>): seq<OsStr> {
    if batches == [] then [] else batches[0] + Flatten(batches[1..])
  }

  predicate Admissible(batches: seq<seq<OsStr>>, budget: nat, maxPerBatch: nat) {
    forall k | 0 <= k < |batches| :: |batches[k]| <= maxPerBatch && Total(batches[k]) <= budget
  }

  lemma {:induction false} GreedyCovers(files: seq<OsStr>, i: nat, budget: nat, maxPerBatch: nat)
    requires i <= |files| && maxPerBatch >= 1
    ensures var y := Greedy(files, i, budget, maxPerBatch);
      && Admissible(y.batches, budget, maxPerBatch)
      && (forall k | 0 <= k < |y.batches| :: y.batches[k] != [])
      && Flatten(y.batches) <= files[i..]
      && (y.panics <==> !AllFit(files[i..], budget))
      && (!y.panics ==> Flatten(y.batches) == files[i..])
    decreases |files| - i
  {
    if i < |files| {
      var end := GreedyEnd(files, i, budget, maxPerBatch);
      StuckIffTooLong(files, i, budget, maxPerBatch);
      if end == i {
        assert files[i..][0] == files[i];
      } else {
        GreedyCovers(files, end, budget, maxPerBatch);
        var rest := Greedy(files, end, budget, maxPerBatch);
        var y := Greedy(files, i, budget, maxPerBatch);
        assert y.batches[1..] == rest.batches;
        assert files[i..] == files[i..end] + files[end..];
        AllFitSplit(files, i, end, budget, maxPerBatch);
      }
    }
  }

  lemma AllFitSplit(files: seq<OsStr>, i: nat, end: nat, budget: nat, maxPerBatch: nat)
    requires i <= end <= |files| && maxPerBatch >= 1 && Fits(files, i, end, budget, maxPerBatch)
    ensures AllFit(files[i..], budget) <==> AllFit(files[end..], budget)
  {
    forall k | i <= k < end
      ensures ArgSize(files[k]) <= budget
    {
      SubwindowFits(files, i, k, k + 1, end, budget, maxPerBatch);
      assert files[k..k + 1] == [files[k]];
      TotalOne(files[k]);
    }
    assert forall k | i <= k < |files| :: files[i..][k - i] == files[k];
    assert forall k | end <= k < |files| :: files[end..][k - end] == files[k];
    assert forall k | 0 <= k < |files| - i :: files[i..][k] == files[k + i];
    assert forall k | 0 <= k < |files| - end :: files[end..][k] == files[k + end];
  }

  /**
    The batches are the filenames in order, each within both limits; there is one empty batch for no
    filenames; and the iterator panics exactly when some filename alone exceeds the budget.
   */
  lemma BatchesCoverFilenames(files: seq<OsStr>, budget: nat, maxPerBatch: nat)
    requires maxPerBatch >= 1
    ensures var y := Batches(files, budget, maxPerBatch);
      && Admissible(y.batches, budget, maxPerBatch)
      && (files == [] <==> [] in y.batches)
      && (y.panics <==> !AllFit(files, budget))
      && Flatten(y.batches) <= files
      && (!y.panics ==> Flatten(y.batches) == files && y.batches != [])
  {
    if files == [] {
      assert Flatten([[]]) == [];
    } else {
      GreedyCovers(files, 0, budget, maxPerBatch);
      assert files[0..] == files;
    }
  }

  // ---- greedy is optimal ----

  function Count(files: seq<OsStr>, i: nat, budget: nat, maxPerBatch: nat): nat
    requires i <= |files|
  {
    |Greedy(files, i, budget, maxPerBatch).batches|
  }

  lemma {:induction false} LaterStartNeedsNoMore(files: seq<OsStr>, i: nat, j: nat, budget: nat, maxPerBatch: nat)
    requires i <= j <= |files| && maxPerBatch >= 1 && AllFit(files, budget)
    ensures Count(files, j, budget, maxPerBatch) <= Count(files, i, budget, maxPerBatch)
    decreases |files| - i
  {
    if j < |files| {
      StuckIffTooLong(files, i, budget, maxPerBatch);
      StuckIffTooLong(files, j, budget, maxPerBatch);
      var endI, endJ := GreedyEnd(files, i, budget, maxPerBatch), GreedyEnd(files, j, budget, maxPerBatch);
      if j < endI {
        SubwindowFits(files, i, j, endI, endI, budget, maxPerBatch);
        GreedyEndIsLongest(files, j, endI, budget, maxPerBatch);
      }
      LaterStartNeedsNoMore(files, endI, endJ, budget, maxPerBatch);
    }
  }

  lemma {:induction false} GreedyStaysAhead(files: seq<OsStr>, i: nat, cut: seq<seq<OsStr>>, budget: nat, maxPerBatch: nat)
    requires i <= |files| && maxPerBatch >= 1 && AllFit(files, budget)
    requires Flatten(cut) == files[i..] && Admissible(cut, budget, maxPerBatch)
    ensures Count(files, i, budget, maxPerBatch) <= |cut|
    decreases |cut|
  {
    if i < |files| {
      assert cut != [];
      var j := i + |cut[0]|;
      assert cut[0] + Flatten(cut[1..]) == files[i..];
      assert files[i..j] == files[i..][..|cut[0]|] == cut[0];
      assert files[j..] == files[i..][|cut[0]|..] == Flatten(cut[1..]);
      GreedyStaysAhead(files, j, cut[1..], budget, maxPerBatch);
      GreedyEndIsLongest(files, i, j, budget, maxPerBatch);
      StuckIffTooLong(files, i, budget, maxPerBatch);
      LaterStartNeedsNoMore(files, j, GreedyEnd(files, i, budget, maxPerBatch), budget, maxPerBatch);
    }
  }

  lemma {:induction false} CutMeansAllFit(files: seq<OsStr>, cut: seq<seq<OsStr>>, budget: nat, maxPerBatch: nat)
    requires Flatten(cut) == files && Admissible(cut, budget, maxPerBatch)
    ensures AllFit(files, budget)
  {
    if cut != [] {
      var b, rest := cut[0], files[|cut[0]|..];
      assert rest == Flatten(cut[1..]);
      CutMeansAllFit(rest, cut[1..], budget, maxPerBatch);
      assert forall k | |b| <= k < |files| :: files[k] == rest[k - |b|];
      forall k | 0 <= k < |b|
        ensures ArgSize(files[k]) <= budget
      {
        TotalConcat(b[..k], b[k..]);
        assert b[..k] + b[k..] == b;
        TotalConcat([b[k]], b[k + 1..]);
        assert [b[k]] + b[k + 1..] == b[k..];
        TotalOne(b[k]);
      }
    }
  }

  /** No cut of the filenames into consecutive admissible batches has fewer batches. */
  lemma NoCutIsShorter(files: seq<OsStr>, cut: seq<seq<OsStr>>, budget: nat, maxPerBatch: nat)
    requires maxPerBatch >= 1
    requires cut != [] && Flatten(cut) == files && Admissible(cut, budget, maxPerBatch)
    ensures var y := Batches(files, budget, maxPerBatch);
      !y.panics && |y.batches| <= |cut|
  {
    CutMeansAllFit(files, cut, budget, maxPerBatch);
    BatchesCoverFilenames(files, budget, maxPerBatch);
    if files != [] {
      assert files[0..] == files;
      GreedyStaysAhead(files, 0, cut, budget, maxPerBatch);
    }
  }

  // ---- the default batch size matches the concurrency ----

  datatype PassFilenames = All | NoFiles | Limited(n: nat)

  function CeilDiv(n: nat, d: nat): nat
    requires d > 0
  {
    (n + d - 1) / d
  }

  function MaxPerBatch(pass: PassFilenames, fileCount: nat, concurrency: nat): nat
    requires concurrency > 0
  {
    match pass
    case Limited(n) => n
    case _ => var share := CeilDiv(fileCount, concurrency); if share > 4 then share else 4
  }

  /** The hook's own limit, or the least number of files, but at least four, that lets `concurrency` batches take all. */
  predicate BatchLimit(pass: PassFilenames, fileCount: nat, concurrency: nat, m: nat) {
    match pass
    case Limited(n) => m == n
    case _ => m >= 4 && m * concurrency >= fileCount && (m > 4 ==> (m - 1) * concurrency < fileCount)
  }

  lemma MaxPerBatchIs(pass: PassFilenames, fileCount: nat, concurrency: nat)
    requires concurrency > 0
    ensures BatchLimit(pass, fileCount, concurrency, MaxPerBatch(pass, fileCount, concurrency))
  {
    var share := CeilDiv(fileCount, concurrency);
    assert (fileCount + concurrency - 1) == share * concurrency + (fileCount + concurrency - 1) % concurrency;
    assert (share - 1) * concurrency == share * concurrency - concurrency;
    if share <= 4 {
      assert share * concurrency <= 4 * concurrency;
    }
  }

  /** Where a batch from `i` ends that only the count limits. */
  function FullEnd(fileCount: nat, i: nat, maxPerBatch: nat): nat {
    if i + maxPerBatch < fileCount then i + maxPerBatch else fileCount
  }

  /** The byte limit ends none of the batches the iterator forms: the consecutive runs of `maxPerBatch` files all fit. */
  predicate FullBatchesFit(files: seq<OsStr>, i: nat, budget: nat, maxPerBatch: nat)
    requires i <= |files| && maxPerBatch >= 1
    decreases |files| - i
  {
    i < |files| ==>
      var end := FullEnd(|files|, i, maxPerBatch);
      Total(files[i..end]) <= budget && FullBatchesFit(files, end, budget, maxPerBatch)
  }

  /** A batch is as long as the count allows if and only if so many files fit. */
  lemma FullBatchIffFits(files: seq<OsStr>, i: nat, budget: nat, maxPerBatch: nat)
    requires i < |files| && maxPerBatch >= 1
    ensures GreedyEnd(files, i, budget, maxPerBatch) == FullEnd(|files|, i, maxPerBatch)
      <==> Total(files[i..FullEnd(|files|, i, maxPerBatch)]) <= budget
  {
    GreedyEndIsLongest(files, i, FullEnd(|files|, i, maxPerBatch), budget, maxPerBatch);
  }

  lemma {:induction false} FullBatches(files: seq<OsStr>, i: nat, budget: nat, maxPerBatch: nat)
    requires i <= |files| && maxPerBatch >= 1 && FullBatchesFit(files, i, budget, maxPerBatch)
    ensures Count(files, i, budget, maxPerBatch) * maxPerBatch < |files| - i + maxPerBatch
    decreases |files| - i
  {
    if i < |files| {
      var end := GreedyEnd(files, i, budget, maxPerBatch);
      FullBatchIffFits(files, i, budget, maxPerBatch);
      FullBatches(files, end, budget, maxPerBatch);
      var rest := Count(files, end, budget, maxPerBatch);
      assert Count(files, i, budget, maxPerBatch) == 1 + rest;
      if end == |files| {
        assert rest == 0;
      }
      OneMore(rest, maxPerBatch, |files| - end, |files| - i);
    }
  }

  /** One batch more, over a full batch of files or, when it is the last, over at least one. */
  lemma OneMore(rest: nat, m: nat, after: nat, before: nat)
    requires rest * m < after + m
    requires before == after + m || (rest == 0 && before > 0)
    ensures (1 + rest) * m < before + m
  {
    assert (1 + rest) * m == m + rest * m;
  }

  lemma ShareCovers(n: nat, d: nat)
    requires d > 0
    ensures n <= d * CeilDiv(n, d)
  {
    var q := (n + d - 1) / d;
    assert n + d - 1 < d * q + d;
  }

  lemma FewerMultiples(count: nat, n: nat, c: nat, m: nat)
    requires count * m < n + m && n <= c * m
    ensures count <= c
  {
    assert m * (c + 1) == c * m + m;
    if count > c {
    }
  }

  /** Unless the hook limits its batches or the byte limit bites, every batch can run at once. */
  lemma AtMostConcurrencyBatches(files: seq<OsStr>, pass: PassFilenames, concurrency: nat, budget: nat)
    requires concurrency > 0 && !pass.Limited?
    requires FullBatchesFit(files, 0, budget, MaxPerBatch(pass, |files|, concurrency))
    ensures |Batches(files, budget, MaxPerBatch(pass, |files|, concurrency)).batches| <= concurrency
  {
    var m := MaxPerBatch(pass, |files|, concurrency);
    FullBatches(files, 0, budget, m);
    ShareCovers(|files|, concurrency);
    FewerMultiples(Count(files, 0, budget, m), |files|, concurrency, m);
  }

  // ---- the budget ----

  type Env = seq<(OsStr, OsStr)>

  function VariableSize(key: OsStr, value: OsStr): nat {
    POINTER_SIZE + |key| + 1 + |value| + 1
  }

  predicate Overridden(key: OsStr, overrides: Env) {
    exists i | 0 <= i < |overrides| :: overrides[i].0 == key
  }

  /** The environment the child process starts with. */
  function ChildEnv(inherited: Env, overrides: Env): Env {
    if inherited == [] then overrides
    else
      var rest := ChildEnv(inherited[1..], overrides);
      if Overridden(inherited[0].0, overrides) then rest else [inherited[0]] + rest
  }

  /** What the child sees: all overrides, and what is inherited under names that none of them has. */
  lemma {:induction false} ChildEnvHas(inherited: Env, overrides: Env, variable: (OsStr, OsStr))
    ensures variable in ChildEnv(inherited, overrides)
      <==> variable in overrides || (variable in inherited && forall o | o in overrides :: o.0 != variable.0)
  {
    if inherited != [] {
      ChildEnvHas(inherited[1..], overrides, variable);
      assert inherited == [inherited[0]] + inherited[1..];
      assert forall i | 0 <= i < |overrides| :: overrides[i] in overrides;
    }
  }

  function EnvTotal(env: Env): nat {
    if env == [] then 0 else VariableSize(env[0].0, env[0].1) + EnvTotal(env[1..])
  }

  /** `env_size`: overridden variables count nothing where they are inherited. */
  function InheritedSize(inherited: Env, overrides: Env): nat {
    if inherited == [] then 0
    else
      (if Overridden(inherited[0].0, overrides) then 0 else VariableSize(inherited[0].0, inherited[0].1))
      + InheritedSize(inherited[1..], overrides)
  }

  function EnvSize(inherited: Env, overrides: Env): nat {
    InheritedSize(inherited, overrides) + EnvTotal(overrides)
  }

  lemma {:induction false} EnvSizeIsChildEnv(inherited: Env, overrides: Env)
    ensures EnvSize(inherited, overrides) == EnvTotal(ChildEnv(inherited, overrides))
  {
    if inherited != [] {
      EnvSizeIsChildEnv(inherited[1..], overrides);
      var rest := ChildEnv(inherited[1..], overrides);
      assert ([inherited[0]] + rest)[1..] == rest;
    }
  }

  /** Bytes `execve` counts for a command line and its environment, both NULL slots included. */
  function ExecSize(args: seq<OsStr>, env: Env): nat {
    Total(args) + POINTER_SIZE + EnvTotal(env) + POINTER_SIZE
  }

  // What `execve` copies: the strings, each ended by a zero byte, and two arrays of pointers ended by a null pointer.

  function ZeroEnded(strings: seq<OsStr>): seq<byte> {
    if strings == [] then [] else ZeroEnded(strings[..|strings| - 1]) + strings[|strings| - 1] + [0]
  }

  function EnvStrings(env: Env): (strings: seq<OsStr>)
    ensures |strings| == |env|
  {
    seq(|env|, i requires 0 <= i < |env| => env[i].0 + ['=' as byte] + env[i].1)
  }

  lemma {:induction false} TotalIsLayout(args: seq<OsStr>)
    ensures Total(args) == |ZeroEnded(args)| + 8 * |args|
  {
    if args != [] {
      TotalIsLayout(args[..|args| - 1]);
    }
  }

  lemma {:induction false} EnvTotalIsLayout(env: Env)
    ensures EnvTotal(env) == |ZeroEnded(EnvStrings(env))| + 8 * |env|
  {
    if env != [] {
      EnvTotalIsLayout(env[1..]);
      assert EnvStrings(env) == [EnvStrings(env)[0]] + EnvStrings(env[1..]);
      ZeroEndedConcat([EnvStrings(env)[0]], EnvStrings(env[1..]));
      ZeroEndedOne(EnvStrings(env)[0]);
    }
  }

  lemma ZeroEndedOne(s: OsStr)
    ensures |ZeroEnded([s])| == |s| + 1
  {
    assert [s][..0] == [];
  }

  lemma {:induction false} ZeroEndedConcat(a: seq<OsStr>, b: seq<OsStr>)
    ensures |ZeroEnded(a + b)| == |ZeroEnded(a)| + |ZeroEnded(b)|
  {
    if b == [] {
      assert a + b == a;
    } else {
      assert (a + b)[..|a + b| - 1] == a + b[..|b| - 1];
      ZeroEndedConcat(a, b[..|b| - 1]);
    }
  }

  /** The size counted for a command line is that of its strings and of both pointer arrays. */
  lemma ExecSizeIsLayout(args: seq<OsStr>, env: Env)
    ensures ExecSize(args, env)
         == |ZeroEnded(args)| + |ZeroEnded(EnvStrings(env))| + 8 * (|args| + 1) + 8 * (|env| + 1)
  {
    TotalIsLayout(args);
    EnvTotalIsLayout(env);
  }

  function Clamp(x: nat, lo: nat, hi: nat): (r: nat)
    requires lo <= hi
    ensures lo <= r <= hi
  {
    if x < lo then lo else if x > hi then hi else x
  }

  datatype Limit = Underflow | Limit(bytes: nat)

  /** `platform_max_cli_length`: `Underflow` where the unsigned subtraction would be negative. */
  method PlatformMaxCliLength(argMax: nat, pageSize: nat) returns (limit: Limit)
    ensures limit == Underflow <==> argMax < pageSize + ARG_HEADROOM
    ensures limit.Limit? ==> limit.bytes == Clamp(argMax - pageSize - ARG_HEADROOM, 4096, 0x10_0000)
  {
    var max := argMax;
    if max < pageSize { return Underflow; }
    max := max - pageSize;
    if max < ARG_HEADROOM { return Underflow; }
    max := max - ARG_HEADROOM;
    return Limit(Clamp(max, 4096, 0x10_0000));
  }

  /** What `ARG_MAX` falls back to when the system gives no value. */
  const FALLBACK_ARG_MAX := 4096

  /** With the fallback value the subtraction underflows for every page size above 2048, so for 4096 and up. */
  method FallbackUnderflows(pageSize: nat) returns (limit: Limit)
    ensures limit == Underflow <==> pageSize > 2048
    ensures pageSize <= 2048 ==> limit == Limit(4096)
  {
    limit := PlatformMaxCliLength(FALLBACK_ARG_MAX, pageSize);
  }

  datatype SplitResult = SplitUnderflow | CommandTooLong | Split(maxPerBatch: nat, budget: nat)

  /** `Partitions::split` for a command whose fixed part is `entry` followed by `hookArgs`. */
  method SplitBudget(platformMax: nat, entry: seq<OsStr>, hookArgs: seq<OsStr>, inherited: Env, overrides: Env,
                     pass: PassFilenames, fileCount: nat, concurrency: nat) returns (r: SplitResult)
    requires concurrency > 0
    ensures r == SplitUnderflow <==> platformMax < EnvSize(inherited, overrides) + POINTER_SIZE
    ensures r == CommandTooLong <==>
      && EnvSize(inherited, overrides) + POINTER_SIZE <= platformMax
      && platformMax <= ExecSize(entry + hookArgs, ChildEnv(inherited, overrides))
    ensures r.Split? ==>
      && r.maxPerBatch == MaxPerBatch(pass, fileCount, concurrency)
      && BatchLimit(pass, fileCount, concurrency, r.maxPerBatch)
      && ExecSize(entry + hookArgs, ChildEnv(inherited, overrides)) + r.budget == platformMax
      && r.budget > 0
  {
    EnvSizeIsChildEnv(inherited, overrides);
    TotalConcat(entry, hookArgs);
    MaxPerBatchIs(pass, fileCount, concurrency);
    var argMax := platformMax;
    if argMax < EnvSize(inherited, overrides) { return SplitUnderflow; }
    argMax := argMax - EnvSize(inherited, overrides);
    if argMax < POINTER_SIZE { return SplitUnderflow; }
    argMax := argMax - POINTER_SIZE;
    var argsSize := Total(entry) + Total(hookArgs) + POINTER_SIZE;
    if argsSize >= argMax {
      return CommandTooLong;
    }
    argMax := argMax - argsSize;
    return Split(MaxPerBatch(pass, fileCount, concurrency), argMax);
  }

  /** Every command line built from a split stays within the platform limit. */
  lemma CommandsStayWithinLimit(platformMax: nat, fixed: seq<OsStr>, env: Env, files: seq<OsStr>,
                                budget: nat, maxPerBatch: nat, k: nat)
    requires ExecSize(fixed, env) + budget == platformMax && maxPerBatch >= 1
    requires k < |Batches(files, budget, maxPerBatch).batches|
    ensures ExecSize(fixed + Batches(files, budget, maxPerBatch).batches[k], env) <= platformMax
  {
    BatchesCoverFilenames(files, budget, maxPerBatch);
    TotalConcat(fixed, Batches(files, budget, maxPerBatch).batches[k]);
  }

  // ---- the iterator ----

  /** The test the scan makes before taking one more filename. */
  lemma ScanStep(files: seq<OsStr>, start: nat, j: nat, budget: nat, maxPerBatch: nat, remaining: int)
    requires start <= j < |files| && Fits(files, start, j, budget, maxPerBatch)
    requires remaining == budget - Total(files[start..j])
    ensures ArgSize(files[j]) > remaining || j - start >= maxPerBatch <==> !Fits(files, start, j + 1, budget, maxPerBatch)
    ensures Total(files[start..j + 1]) == Total(files[start..j]) + ArgSize(files[j])
  {
    var next := files[start..j + 1];
    assert next[..|next| - 1] == files[start..j];
  }

  lemma FirstBatch(files: seq<OsStr>, i: nat, budget: nat, maxPerBatch: nat)
    requires i < |files|
    ensures var end, y := GreedyEnd(files, i, budget, maxPerBatch), Greedy(files, i, budget, maxPerBatch);
      && (end == i ==> y == Yield([], true))
      && (end > i ==> var rest := Greedy(files, end, budget, maxPerBatch);
                      y == Yield([files[i..end]] + rest.batches, rest.panics))
  {
  }

  lemma NoneLeft(files: seq<OsStr>, budget: nat, maxPerBatch: nat)
    ensures Greedy(files, |files|, budget, maxPerBatch) == Yield([], false)
  {
  }

  /** The scan of `Partitions::next`: how far the batch that begins at `startIndex` reaches. */
  method ScanBatch(filenames: seq<OsStr>, startIndex: nat, budget: nat, maxPerBatch: nat) returns (currentIndex: nat)
    requires startIndex <= |filenames|
    ensures currentIndex == GreedyEnd(filenames, startIndex, budget, maxPerBatch)
  {
    currentIndex := startIndex;
    var remaining := budget;
    assert filenames[startIndex..startIndex] == [];
    while currentIndex < |filenames|
      invariant startIndex <= currentIndex <= |filenames|
      invariant Fits(filenames, startIndex, currentIndex, budget, maxPerBatch)
      invariant remaining == budget - Total(filenames[startIndex..currentIndex])
      invariant GreedyEnd(filenames, startIndex, budget, maxPerBatch)
             == Extend(filenames, startIndex, currentIndex, budget, maxPerBatch)
    {
      var length := ArgSize(filenames[currentIndex]);
      ScanStep(filenames, startIndex, currentIndex, budget, maxPerBatch, remaining);
      if length > remaining || currentIndex - startIndex >= maxPerBatch {
        break;
      }
      remaining := remaining - length;
      currentIndex := currentIndex + 1;
    }
  }

  datatype Item = Batch(files: seq<OsStr>) | Done | Panic

  class PartitionIter {
    const filenames: seq<OsStr>
    const maxPerBatch: nat
    const budget: nat
    var currentIndex: nat

    constructor (filenames: seq<OsStr>, maxPerBatch: nat, budget: nat)
      ensures this.filenames == filenames && this.maxPerBatch == maxPerBatch && this.budget == budget
      ensures currentIndex == 0 && Remaining() == Batches(filenames, budget, maxPerBatch)
    {
      this.filenames, this.maxPerBatch, this.budget, currentIndex := filenames, maxPerBatch, budget, 0;
    }

    /** What the iterator has still to yield. */
    ghost function Remaining(): Yield
      reads this
    {
      if currentIndex == 0 then Batches(filenames, budget, maxPerBatch)
      else if currentIndex >= |filenames| then Yield([], false)
      else Greedy(filenames, currentIndex, budget, maxPerBatch)
    }

    method Next() returns (item: Item)
      modifies this
      ensures item == Done <==> old(Remaining()) == Yield([], false)
      ensures item == Panic <==> old(Remaining()) == Yield([], true)
      ensures item.Batch? ==> old(Remaining()) == Yield([item.files] + Remaining().batches, Remaining().panics)
      ensures !item.Batch? ==> currentIndex == old(currentIndex)
      ensures item.Batch? ==> currentIndex > old(currentIndex)
    {
      if filenames == [] && currentIndex == 0 {
        currentIndex := 1;
        return Batch([]);
      }
      if currentIndex >= |filenames| {
        return Done;
      }
      var startIndex := currentIndex;
      currentIndex := ScanBatch(filenames, startIndex, budget, maxPerBatch);
      FirstBatch(filenames, startIndex, budget, maxPerBatch);
      NoneLeft(filenames, budget, maxPerBatch);
      if currentIndex == startIndex {
        return Panic;
      }
      return Batch(filenames[startIndex..currentIndex]);
    }
  }

  lemma OneBatchOn(done: seq<seq<OsStr>>, files: seq<OsStr>, before: Yield, after: Yield)
    requires before == Yield([files] + after.batches, after.panics)
    ensures Yield(done + before.batches, before.panics) == Yield(done + [files] + after.batches, after.panics)
    ensures |after.batches| < |before.batches|
  {
    assert done + ([files] + after.batches) == done + [files] + after.batches;
  }

  /** Draining the iterator, as the batch stream of `run_by_batch` does. */
  method Drain(filenames: seq<OsStr>, maxPerBatch: nat, budget: nat) returns (batches: seq<seq<OsStr>>, panicked: bool)
    ensures Yield(batches, panicked) == Batches(filenames, budget, maxPerBatch)
  {
    var iter := new PartitionIter(filenames, maxPerBatch, budget);
    batches, panicked := [], false;
    while true
      invariant fresh(iter)
      invariant iter.filenames == filenames
      invariant Batches(filenames, budget, maxPerBatch) == Yield(batches + iter.Remaining().batches, iter.Remaining().panics)
      decreases |iter.Remaining().batches|
    {
      ghost var before := iter.Remaining();
      var item := iter.Next();
      match item
      case Batch(files) =>
        OneBatchOn(batches, files, before, iter.Remaining());
        batches := batches + [files];
      case Done => return;
      case Panic => panicked := true; return;
    }
  }
}
