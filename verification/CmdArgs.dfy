/**
  The argument bookkeeping of `Cmd`: one argument list for the process, with two compact marks on it — the
  ranges hidden from display, and where the file list begins.
 */
module CmdArgs {

  /** Half open, as indices into the arguments. */
  datatype Range = Range(start: nat, end: nat)

  /** `usize::MAX`: no file list yet. */
  const UNBOUNDED: nat := 0xFFFF_FFFF_FFFF_FFFF

  datatype Marks = Marks(args: seq<string>, hidden: seq<Range>, boundary: nat)

  // ---- what is shown of a state ----

  /** `is_hidden_arg`. */
  predicate IsHidden(hidden: seq<Range>, index: nat) {
    exists k :: 0 <= k < |hidden| && hidden[k].start <= index < hidden[k].end
  }

  /** `non_file_args`, which the log shows. */
  function NonFileArgs(s: Marks): seq<string> {
    if s.boundary < |s.args| then s.args[..s.boundary] else s.args
  }

  function Unhidden(args: seq<string>, hidden: seq<Range>): seq<string> {
    if args == [] then []
    else
      Unhidden(args[..|args| - 1], hidden)
      + if IsHidden(hidden, |args| - 1) then [] else [args[|args| - 1]]
  }

  /** `display_args`. */
  function DisplayArgs(s: Marks): seq<string> {
    Unhidden(NonFileArgs(s), s.hidden)
  }

  // ---- the builder calls ----

  datatype Call = Arg(arg: string) | Args(args: seq<string>) | HiddenArgs(args: seq<string>) | FileArgs(args: seq<string>)

  function Added(call: Call): seq<string> {
    if call.Arg? then [call.arg] else call.args
  }

  /** A new hidden range grows the last one when it starts where that ends. */
  function Hide(hidden: seq<Range>, start: nat, end: nat): seq<Range> {
    if start >= end then hidden
    else if hidden != [] && hidden[|hidden| - 1].end >= start then
      var last := hidden[|hidden| - 1];
      hidden[..|hidden| - 1] + [Range(last.start, if last.end > end then last.end else end)]
    else hidden + [Range(start, end)]
  }

  function Step(s: Marks, call: Call): Marks {
    var args := s.args + Added(call);
    match call
    case Arg(_) => s.(args := args)
    case Args(_) => s.(args := args)
    case HiddenArgs(_) => s.(args := args, hidden := Hide(s.hidden, |s.args|, |args|))
    case FileArgs(files) =>
      s.(args := args, boundary := if s.boundary != UNBOUNDED || files == [] then s.boundary else |s.args|)
  }

  const NEW := Marks([], [], UNBOUNDED)

  function Run(calls: seq<Call>): Marks {
    if calls == [] then NEW else Step(Run(calls[..|calls| - 1]), calls[|calls| - 1])
  }

  class Cmd {
    var args: seq<string>
    var hiddenArgRanges: seq<Range>
    var fileArgBoundary: nat

    ghost function State(): Marks
      reads this
    {
      Marks(args, hiddenArgRanges, fileArgBoundary)
    }

    constructor ()
      ensures State() == NEW
    {
      args, hiddenArgRanges, fileArgBoundary := [], [], UNBOUNDED;
    }

    method AddArg(arg: string)
      modifies this
      ensures State() == Step(old(State()), Arg(arg))
    {
      args := args + [arg];
    }

    method AddArgs(more: seq<string>)
      modifies this
      ensures State() == Step(old(State()), Args(more))
    {
      args := args + more;
    }

    method AddHiddenArgs(more: seq<string>)
      modifies this
      ensures State() == Step(old(State()), HiddenArgs(more))
    {
      var start := |args|;
      args := args + more;
      var end := |args|;
      if start < end {
        if hiddenArgRanges != [] {
          var last := hiddenArgRanges[|hiddenArgRanges| - 1];
          if last.end >= start {
            hiddenArgRanges := hiddenArgRanges[|hiddenArgRanges| - 1 := last.(end := if last.end > end then last.end else end)];
            return;
          }
        }
        hiddenArgRanges := hiddenArgRanges + [Range(start, end)];
      }
    }

    method AddFileArgs(files: seq<string>)
      modifies this
      ensures State() == Step(old(State()), FileArgs(files))
    {
      if fileArgBoundary != UNBOUNDED {
        args := args + files;
        return;
      }
      if files == [] {
        return;
      }
      var start := |args|;
      args := args + files;
      fileArgBoundary := start;
    }
  }

  // ---- what the calls promise ----

  /** Some `file_args` call had files. */
  predicate HasFiles(calls: seq<Call>) {
    exists k :: 0 <= k < |calls| && calls[k].FileArgs? && calls[k].args != []
  }

  /** Everything, for the process. */
  function Passed(calls: seq<Call>): seq<string> {
    if calls == [] then [] else Passed(calls[..|calls| - 1]) + Added(calls[|calls| - 1])
  }

  /** What was added before the first files: with the hidden ones for the log, without them for display. */
  function BeforeFiles(calls: seq<Call>, withHidden: bool): seq<string> {
    if calls == [] then []
    else
      var init, last := calls[..|calls| - 1], calls[|calls| - 1];
      BeforeFiles(init, withHidden)
      + if HasFiles(init) || last.FileArgs? || (last.HiddenArgs? && !withHidden) then [] else Added(last)
  }

  /** Sorted, none empty, none touching the next, all within the arguments. */
  predicate RangesOk(hidden: seq<Range>, length: nat) {
    && (forall k | 0 <= k < |hidden| :: hidden[k].start < hidden[k].end <= length)
    && (forall j, k | 0 <= j < k < |hidden| :: hidden[j].end < hidden[k].start)
  }

  lemma HideKeepsRanges(hidden: seq<Range>, start: nat, end: nat)
    requires RangesOk(hidden, start) && start <= end
    ensures RangesOk(Hide(hidden, start, end), end)
    ensures forall i: nat :: IsHidden(Hide(hidden, start, end), i) <==> IsHidden(hidden, i) || start <= i < end
  {
    var after := Hide(hidden, start, end);
    var n := |hidden|;
    forall i: nat ensures IsHidden(after, i) <==> IsHidden(hidden, i) || start <= i < end {
      if IsHidden(hidden, i) {
        var k :| 0 <= k < n && hidden[k].start <= i < hidden[k].end;
        assert after[k].start <= i < after[k].end;
      } else if start <= i < end {
        assert after[|after| - 1].start <= i < after[|after| - 1].end;
      } else {
        forall k | 0 <= k < |after| ensures !(after[k].start <= i < after[k].end) {
          if k < n {
            assert !(hidden[k].start <= i < hidden[k].end);
          }
        }
      }
    }
  }

  lemma {:induction false} SameUnhidden(args: seq<string>, hidden: seq<Range>, after: seq<Range>)
    requires forall i: nat | i < |args| :: IsHidden(after, i) <==> IsHidden(hidden, i)
    ensures Unhidden(args, after) == Unhidden(args, hidden)
  {
    if args != [] {
      SameUnhidden(args[..|args| - 1], hidden, after);
    }
  }

  /** Arguments appended all in one state are shown all or not at all. */
  lemma {:induction false} UnhiddenAppended(args: seq<string>, more: seq<string>, hidden: seq<Range>, shown: bool)
    requires forall i: nat | |args| <= i < |args| + |more| :: IsHidden(hidden, i) <==> !shown
    ensures Unhidden(args + more, hidden) == Unhidden(args, hidden) + if shown then more else []
  {
    if more == [] {
      assert args + more == args;
    } else {
      var init := more[..|more| - 1];
      assert (args + more)[..|args + more| - 1] == args + init;
      UnhiddenAppended(args, init, hidden, shown);
      assert more == init + [more[|more| - 1]];
    }
  }

  /** A state shows what the calls so far promise. */
  ghost predicate Faithful(s: Marks, calls: seq<Call>) {
    && s.args == Passed(calls)
    && RangesOk(s.hidden, |s.args|)
    && (if HasFiles(calls) then s.boundary < |s.args| < UNBOUNDED else s.boundary == UNBOUNDED)
    && NonFileArgs(s) == BeforeFiles(calls, true)
    && DisplayArgs(s) == BeforeFiles(calls, false)
  }

  lemma HasFilesSnoc(calls: seq<Call>, call: Call)
    ensures HasFiles(calls + [call]) <==> HasFiles(calls) || (call.FileArgs? && call.args != [])
  {
    var all := calls + [call];
    if HasFiles(calls) {
      var k :| 0 <= k < |calls| && calls[k].FileArgs? && calls[k].args != [];
      assert all[k].FileArgs? && all[k].args != [];
    } else if call.FileArgs? && call.args != [] {
      assert all[|calls|].FileArgs? && all[|calls|].args != [];
    }
  }

  /** Past the first files, nothing shown changes. */
  lemma FrozenStep(s: Marks, calls: seq<Call>, call: Call)
    requires Faithful(s, calls) && HasFiles(calls) && |s.args| + |Added(call)| < UNBOUNDED
    ensures NonFileArgs(Step(s, call)) == NonFileArgs(s) && DisplayArgs(Step(s, call)) == DisplayArgs(s)
  {
    var after := Step(s, call);
    var shown := NonFileArgs(s);
    assert NonFileArgs(after) == shown;
    HideKeepsRanges(s.hidden, |s.args|, |after.args|);
    SameUnhidden(shown, s.hidden, after.hidden);
  }

  lemma OpenStep(s: Marks, calls: seq<Call>, call: Call)
    requires Faithful(s, calls) && !HasFiles(calls) && |s.args| + |Added(call)| < UNBOUNDED
    ensures var after, more := Step(s, call), Added(call);
      && NonFileArgs(after) == s.args + (if call.FileArgs? then [] else more)
      && DisplayArgs(after) == DisplayArgs(s) + (if call.Arg? || call.Args? then more else [])
  {
    var after, more := Step(s, call), Added(call);
    HideKeepsRanges(s.hidden, |s.args|, |after.args|);
    SameUnhidden(s.args, s.hidden, after.hidden);
    if call.FileArgs? {
      assert NonFileArgs(after) == s.args;
    } else {
      UnhiddenAppended(s.args, more, after.hidden, !call.HiddenArgs?);
    }
  }

  lemma StepKeepsRanges(s: Marks, call: Call)
    requires RangesOk(s.hidden, |s.args|)
    ensures RangesOk(Step(s, call).hidden, |Step(s, call).args|)
  {
    HideKeepsRanges(s.hidden, |s.args|, |s.args| + |Added(call)|);
  }

  /**
    For every sequence of calls: the process gets every argument in order, the log shows those added before
    the first files, the display the same without the hidden ones, and the ranges stay sorted and apart.
   */
  lemma {:induction false} RunIsFaithful(calls: seq<Call>)
    requires |Passed(calls)| < UNBOUNDED
    ensures Faithful(Run(calls), calls)
  {
    if calls != [] {
      var init, call := calls[..|calls| - 1], calls[|calls| - 1];
      assert calls == init + [call];
      RunIsFaithful(init);
      HasFilesSnoc(init, call);
      StepKeepsRanges(Run(init), call);
      if HasFiles(init) {
        FrozenStep(Run(init), init, call);
      } else {
        OpenStep(Run(init), init, call);
      }
    }
  }
}
