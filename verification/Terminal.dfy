/**
  `TerminalOutput`: the program's string, offsets and flags, updated in place.

  `machine` is the token state these fields stand for.  Every method is proved to move it by the
  corresponding step of `Transcript`, so everything proved there holds of the sanitized string.
 */
module Terminal {
  import opened Wrappers
  import opened Sgr
  import opened Transcript
  import opened Layout

  function TokText(t: Tok): string {
    match t
    case Ch(c) => [c]
    case Seq(ps) => Encode(ps)
  }

  function Render(text: seq<Tok>): string {
    if text == [] then "" else Render(text[..|text| - 1]) + TokText(text[|text| - 1])
  }

  lemma {:induction false} RenderConcat(a: seq<Tok>, b: seq<Tok>)
    ensures Render(a + b) == Render(a) + Render(b)
  {
    if b == [] {
      assert a + b == a;
    } else {
      ConcatSnoc(a, b);
      RenderConcat(a, b[..|b| - 1]);
      Associative(Render(a), Render(b[..|b| - 1]), TokText(b[|b| - 1]));
    }
  }

  lemma ConcatSnoc(a: seq<Tok>, b: seq<Tok>)
    requires b != []
    ensures var c := a + b; c != [] && c[..|c| - 1] == a + b[..|b| - 1] && c[|c| - 1] == b[|b| - 1]
  {
  }

  lemma Associative(a: string, b: string, c: string)
    ensures a + b + c == a + (b + c)
  {
  }

  // ---- the string determines the tokens ----

  /** What the machine writes: no escape characters outside sequences, and no empty sequence. */
  predicate Clean(text: seq<Tok>) {
    forall i | 0 <= i < |text| :: match text[i] case Ch(c) => c != ESC case Seq(ps) => ps != []
  }

  lemma PreparedClean(s: State)
    requires WellFormed(s) && Clean(s.text)
    ensures Clean(Prepared(s).text)
  {
    var s' := if s.pendingCr then Cleared(s).(pendingCr := false) else s;
    assert Clean(s'.text) && Clean(RestoreToks(s.active));
  }

  lemma StepClean(s: State, e: Event)
    requires WellFormed(s) && Clean(s.text)
    ensures Clean(Step(s, e).text)
  {
    PreparedClean(s);
    assert e.Csi? && IsSgr(e) ==> Clean(PushSgr(s, e.params).text);
    assert e.Csi? ==> Clean(EraseLine(s, e.params).text);
  }

  lemma {:induction false} ReachableClean(es: seq<Event>)
    ensures WellFormed(Run(es)) && Clean(Run(es).text)
  {
    if es != [] {
      ReachableClean(es[..|es| - 1]);
      StepWellFormed(Run(es[..|es| - 1]), es[|es| - 1]);
      StepClean(Run(es[..|es| - 1]), es[|es| - 1]);
    }
  }

  /** The `m` that ends a sequence is the only one in it. */
  lemma OneFinalByte(ps: seq<Param>)
    ensures 'm' !in Body(ps)
  {
    forall i | 0 <= i < |ps| ensures 'm' !in ParamTexts(ps)[i] { ParamTextChars(ps[i]); }
    JoinChars(ParamTexts(ps), ';', 'm');
  }

  lemma NoLongerTail(ps: seq<Param>, u: string, qs: seq<Param>)
    requires Tail(ps) + u == Tail(qs)
    ensures u == ""
  {
    OneFinalByte(qs);
    var k := |Tail(ps)| - 1;
    assert (Tail(ps) + u)[k] == 'm';
    assert forall j | 0 < j < |Tail(qs)| - 1 :: Tail(qs)[j] == Body(qs)[j - 1];
  }

  /** The last sequence of a text, with the characters after it; or there is no escape character at all. */
  lemma {:induction false} LastSequence(a: seq<Tok>) returns (found: bool, x: string, ps: seq<Param>, u: string)
    requires Clean(a)
    ensures found ==> Render(a) == x + [ESC] + (Tail(ps) + u) && ESC !in u
    ensures !found ==> ESC !in Render(a)
    ensures found && a != [] && a[|a| - 1].Ch? ==> u != ""
  {
    if a == [] {
      found, x, ps, u := false, "", [], "";
    } else if a[|a| - 1].Seq? {
      found, x, ps, u := true, Render(a[..|a| - 1]), a[|a| - 1].ps, "";
      assert Tail(ps) + u == Tail(ps);
    } else {
      var c := a[|a| - 1].c;
      found, x, ps, u := LastSequence(a[..|a| - 1]);
      assert x + [ESC] + (Tail(ps) + u) + [c] == x + [ESC] + (Tail(ps) + (u + [c]));
      u := u + [c];
    }
  }

  lemma EndsDiffer(a: seq<Tok>, b: seq<Tok>)
    requires Clean(a) && Clean(b) && a != [] && b != [] && a[|a| - 1].Ch? && b[|b| - 1].Seq?
    ensures Render(a) != Render(b)
  {
    var qs := b[|b| - 1].ps;
    var x' := Render(b[..|b| - 1]);
    assert Render(b) == x' + [ESC] + Tail(qs);
    var found, x, ps, u := LastSequence(a);
    if Render(a) == Render(b) {
      assert ESC in Render(b);
      TailChars(ps);
      TailChars(qs);
      LastSeparatorUnique(x, Tail(ps) + u, x', Tail(qs), ESC);
      NoLongerTail(ps, u, qs);
    }
  }

  /** Texts that render alike end in the same token, after texts that render alike. */
  lemma LastTokenUnique(a: seq<Tok>, b: seq<Tok>)
    requires Clean(a) && Clean(b) && a != [] && b != [] && Render(a) == Render(b)
    ensures a[|a| - 1] == b[|b| - 1] && Render(a[..|a| - 1]) == Render(b[..|b| - 1])
  {
    if a[|a| - 1].Seq? {
      if b[|b| - 1].Ch? {
        EndsDiffer(b, a);
      } else {
        LastEncodedUnique(Render(a[..|a| - 1]), a[|a| - 1].ps, Render(b[..|b| - 1]), b[|b| - 1].ps);
      }
    } else if b[|b| - 1].Seq? {
      EndsDiffer(a, b);
    } else {
      LastCharUnique(Render(a[..|a| - 1]), a[|a| - 1].c, Render(b[..|b| - 1]), b[|b| - 1].c);
    }
  }

  lemma TokensShow(a: seq<Tok>)
    requires Clean(a) && a != []
    ensures Render(a) != ""
  {
  }

  /** A rendered text stands for one list of tokens only, so a terminal reads from it what the machine meant. */
  lemma {:induction false} RenderInjective(a: seq<Tok>, b: seq<Tok>)
    requires Clean(a) && Clean(b) && Render(a) == Render(b)
    ensures a == b
  {
    if a == [] {
      if b != [] {
        TokensShow(b);
      }
    } else if b == [] {
      TokensShow(a);
    } else {
      LastTokenUnique(a, b);
      RenderInjective(a[..|a| - 1], b[..|b| - 1]);
      SameEnds(a, b);
    }
  }

  lemma SameEnds(a: seq<Tok>, b: seq<Tok>)
    requires a != [] && b != [] && a[..|a| - 1] == b[..|b| - 1] && a[|a| - 1] == b[|b| - 1]
    ensures a == b
  {
    assert a == a[..|a| - 1] + [a[|a| - 1]] && b == b[..|b| - 1] + [b[|b| - 1]];
  }

  lemma LastCharUnique(u: string, c: char, v: string, d: char)
    requires u + [c] == v + [d]
    ensures u == v && c == d
  {
    assert (u + [c])[..|u|] == u && (v + [d])[..|v|] == v;
  }

  /** Two runs with the same sanitized string show the same characters in the same styles. */
  lemma SameStringSameView(es: seq<Event>, es': seq<Event>)
    requires Render(Run(es).text) == Render(Run(es').text)
    ensures Run(es).text == Run(es').text && View(Run(es).text) == View(Run(es').text)
  {
    ReachableClean(es);
    ReachableClean(es');
    RenderInjective(Run(es).text, Run(es').text);
  }

  /** Text committed by a run stays at the front of the string, however the run continues. */
  lemma CommittedTextForever(es: seq<Event>, more: seq<Event>)
    ensures Render(Run(es).text[..Run(es).lineStart]) <= Render(Run(es + more).text)
  {
    CommittedForever(es, more);
    var kept, all := Run(es).text[..Run(es).lineStart], Run(es + more).text;
    assert kept + all[|kept|..] == all;
    RenderConcat(kept, all[|kept|..]);
  }

  lemma {:induction false} RenderToks(seqs: seq<seq<Param>>)
    ensures Render(Toks(seqs)) == EncodeAll(seqs)
  {
    if seqs != [] {
      assert Toks(seqs)[..|seqs| - 1] == Toks(seqs[..|seqs| - 1]);
      RenderToks(seqs[..|seqs| - 1]);
    }
  }

  const RESET_TEXT := [ESC] + "[0m"

  lemma ResetText()
    ensures Encode([RESET]) == RESET_TEXT
  {
    assert Numbers(RESET) == [Digits(0)];
    assert Digits(0) == "0";
    assert ParamTexts([RESET]) == [ParamText(RESET)];
  }

  /** The fields stand for a token state. */
  ghost predicate Represents(text: string, lineStart: nat, pendingCr: bool, activeStyle: string,
                             lineStartStyle: string, restoreStyle: bool, s: State)
  {
    && WellFormed(s)
    && text == Render(s.text)
    && lineStart == |Render(s.text[..s.lineStart])|
    && pendingCr == s.pendingCr
    && activeStyle == EncodeAll(s.active)
    && lineStartStyle == EncodeAll(s.lineStartStyle)
    && restoreStyle == s.restore
  }

  lemma TruncatedText(s: State)
    requires WellFormed(s)
    ensures Render(s.text[..s.lineStart]) <= Render(s.text)
  {
    assert s.text[..s.lineStart] + s.text[s.lineStart..] == s.text;
    RenderConcat(s.text[..s.lineStart], s.text[s.lineStart..]);
  }

  lemma RestoreText(active: seq<seq<Param>>)
    ensures Render(RestoreToks(active)) == RESET_TEXT + EncodeAll(active)
  {
    ResetText();
    RenderConcat([Seq([RESET])], Toks(active));
    RenderToks(active);
    RenderOne(Seq([RESET]));
  }

  lemma RenderOne(t: Tok)
    ensures Render([t]) == TokText(t)
  {
    assert [t][..0] == [] && Render([]) == "";
  }

  lemma RestoredRepresents(text: string, lineStart: nat, pendingCr: bool, activeStyle: string,
                           lineStartStyle: string, restoreStyle: bool, s: State)
    requires Represents(text, lineStart, pendingCr, activeStyle, lineStartStyle, restoreStyle, s)
    ensures Represents(text + RESET_TEXT + activeStyle, lineStart, pendingCr, activeStyle, lineStartStyle, false,
                       Restored(s))
  {
    var all := Restored(s).text;
    assert all[..s.lineStart] == s.text[..s.lineStart];
    assert Render(all) == text + RESET_TEXT + activeStyle by {
      RestoreText(s.active);
      RenderConcat(s.text, RestoreToks(s.active));
      assert text + RESET_TEXT + activeStyle == text + (RESET_TEXT + activeStyle);
    }
  }

  /** The text `push_sgr` leaves in `active_style`. */
  function NextActiveText(activeStyle: string, ps: seq<Param>): string
    requires ps != []
  {
    var k := AfterLastReset(ps);
    if k == 0 then activeStyle + Encode(ps) else if k == |ps| then "" else Encode(ps[k..])
  }

  /** Appending one token after the line start keeps the other fields as they are. */
  lemma AppendedRepresents(text: string, lineStart: nat, pendingCr: bool, activeStyle: string,
                           lineStartStyle: string, restoreStyle: bool, s: State, t: Tok)
    requires Represents(text, lineStart, pendingCr, activeStyle, lineStartStyle, restoreStyle, s)
    ensures Represents(text + TokText(t), lineStart, pendingCr, activeStyle, lineStartStyle, restoreStyle,
                       s.(text := s.text + [t]))
  {
    assert (s.text + [t])[..s.lineStart] == s.text[..s.lineStart];
  }

  lemma NewlineRepresents(text: string, lineStart: nat, pendingCr: bool, activeStyle: string,
                          lineStartStyle: string, restoreStyle: bool, s: State, committed: string, inherited: string)
    requires Represents(text, lineStart, pendingCr, activeStyle, lineStartStyle, restoreStyle, s)
    requires committed == text + "\n" && inherited == if restoreStyle then lineStartStyle else activeStyle
    ensures Represents(committed, |committed|, false, activeStyle, inherited, restoreStyle, Newline(s))
  {
    var next := Newline(s);
    RenderedNewline(s.text);
    assert next.text[..|next.text|] == next.text;
  }

  lemma RenderedNewline(text: seq<Tok>)
    ensures Render(text + [Ch('\n')]) == Render(text) + "\n"
  {
    assert (text + [Ch('\n')])[..|text|] == text;
  }

  lemma PushedRepresents(text: string, lineStart: nat, pendingCr: bool, activeStyle: string,
                         lineStartStyle: string, restoreStyle: bool, s: State, ps: seq<Param>)
    requires Represents(text, lineStart, pendingCr, activeStyle, lineStartStyle, restoreStyle, s) && ps != []
    ensures Represents(text + Encode(ps), lineStart, pendingCr, NextActiveText(activeStyle, ps),
                       lineStartStyle, restoreStyle, Pushed(s, ps))
  {
    AppendedRepresents(text, lineStart, pendingCr, activeStyle, lineStartStyle, restoreStyle, s, Seq(ps));
    NextActiveStyle(s.active, ps);
  }

  /** The loop of `push_sgr` that looks for the last full reset: one past its index, 0 without one. */
  method LastReset(ps: seq<Param>) returns (lastReset: nat)
    ensures lastReset == AfterLastReset(ps)
  {
    lastReset := 0;
    for index := 0 to |ps|
      invariant lastReset == AfterLastReset(ps[..index])
    {
      assert ps[..index + 1][..index] == ps[..index];
      if ps[index] == RESET {
        lastReset := index + 1;
      }
    }
    assert ps[..|ps|] == ps;
  }

  /** The last part of `push_sgr`: a full reset makes every earlier SGR irrelevant. */
  method UpdatedStyle(activeStyle: string, sequence: string, ps: seq<Param>) returns (style: string)
    requires ps != [] && sequence == Encode(ps)
    ensures style == NextActiveText(activeStyle, ps)
  {
    var lastReset := LastReset(ps);
    if lastReset > 0 {
      var rest := SgrSequence(ps[lastReset..]);
      style := if rest == None then "" else rest.value;
    } else {
      style := activeStyle + sequence;
    }
  }

  class TerminalOutput {
    var text: string
    var lineStart: nat
    var pendingCr: bool
    var activeStyle: string
    var lineStartStyle: string
    var restoreStyle: bool
    ghost var machine: State

    ghost predicate Valid()
      reads this
    {
      Represents(text, lineStart, pendingCr, activeStyle, lineStartStyle, restoreStyle, machine)
    }

    constructor ()
      ensures Valid() && machine == INIT && text == ""
    {
      text, lineStart, pendingCr := "", 0, false;
      activeStyle, lineStartStyle, restoreStyle := "", "", false;
      machine := INIT;
    }

    method ClearCurrentLine()
      requires Valid()
      modifies this
      ensures Valid() && machine == Cleared(old(machine))
      ensures text <= old(text) && |text| == old(lineStart)
    {
      TruncatedText(machine);
      EncodeAllInjective(machine.active, machine.lineStartStyle);
      text := text[..lineStart];
      restoreStyle := activeStyle != lineStartStyle;
      machine := Cleared(machine);
      assert machine.text[..machine.lineStart] == machine.text;
    }

    /** Clearing the line also settles a pending return. */
    method DropCurrentLine()
      requires Valid()
      modifies this
      ensures Valid() && machine == Cleared(old(machine)).(pendingCr := false)
    {
      ClearCurrentLine();
      pendingCr := false;
      machine := machine.(pendingCr := false);
    }

    method RestoreActiveStyle()
      requires Valid()
      modifies this
      ensures Valid() && machine == Restored(old(machine))
    {
      RestoredRepresents(text, lineStart, pendingCr, activeStyle, lineStartStyle, restoreStyle, machine);
      text := text + RESET_TEXT;
      text := text + activeStyle;
      restoreStyle := false;
      machine := Restored(machine);
    }

    method PrepareForText()
      requires Valid()
      modifies this
      ensures Valid() && machine == Prepared(old(machine))
    {
      if pendingCr {
        DropCurrentLine();
      }
      if restoreStyle {
        RestoreActiveStyle();
      }
    }

    method PushNewline()
      requires Valid()
      modifies this
      ensures Valid() && machine == Newline(old(machine))
      ensures text == old(text) + "\n" && lineStart == |text|
    {
      ghost var next := Newline(machine);
      var committed := text + "\n";
      var inherited := lineStartStyle;
      if !restoreStyle {
        inherited := activeStyle;
      }
      NewlineRepresents(text, lineStart, pendingCr, activeStyle, lineStartStyle, restoreStyle, machine, committed, inherited);
      pendingCr, text, lineStart, lineStartStyle, machine := false, committed, |committed|, inherited, next;
    }

    /** The part of `push_sgr` after the sequence has been encoded. */
    method AppendSequence(sequence: string, ps: seq<Param>)
      requires Valid() && ps != [] && sequence == Encode(ps)
      modifies this
      ensures Valid() && machine == Pushed(old(machine), ps)
      ensures text == old(text) + sequence
    {
      PushedRepresents(text, lineStart, pendingCr, activeStyle, lineStartStyle, restoreStyle, machine, ps);
      var style := UpdatedStyle(activeStyle, sequence, ps);
      text, activeStyle, machine := text + sequence, style, Pushed(machine, ps);
    }

    method PushSgrSequence(ps: seq<Param>)
      requires Valid()
      modifies this
      ensures Valid() && machine == PushSgr(old(machine), ps)
    {
      if !pendingCr {
        PrepareForText();
      }
      var encoded := SgrSequence(ps);
      if encoded == None {
        return;
      }
      AppendSequence(encoded.value, ps);
    }

    method EraseInLine(ps: seq<Param>)
      requires Valid()
      modifies this
      ensures Valid() && machine == EraseLine(old(machine), ps)
    {
      var mode := if ps != [] && ps[0] != [] then ps[0][0] else 0;
      if pendingCr || mode == 1 || mode == 2 {
        DropCurrentLine();
      }
    }

    method Write(c: char)
      requires Valid()
      modifies this
      ensures Valid() && machine == Put(old(machine), c)
    {
      PrepareForText();
      AppendedRepresents(text, lineStart, pendingCr, activeStyle, lineStartStyle, restoreStyle, machine, Ch(c));
      text := text + [c];
      machine := machine.(text := machine.text + [Ch(c)]);
    }

    method Handle(e: Event)
      requires Valid()
      modifies this
      ensures Valid() && machine == Step(old(machine), e)
    {
      match e
      case Print(c) =>
        Write(c);
      case Execute(control) =>
        if control == LF {
          PushNewline();
        } else if control == CR {
          pendingCr := true;
          machine := machine.(pendingCr := true);
        } else if control == TAB {
          Write('\t');
        }
      case Csi(params, intermediates, ignored, action) =>
        if ignored || intermediates != [] {
          return;
        }
        if action == 'm' {
          PushSgrSequence(params);
        } else if action == 'K' {
          EraseInLine(params);
        }
    }
  }

  /** `sanitize_output` from the parsed events on: the rendering of the machine's transcript. */
  method SanitizeOutput(events: seq<Event>) returns (text: string)
    ensures text == Render(Run(events).text)
  {
    var output := new TerminalOutput();
    for i := 0 to |events|
      invariant output.Valid() && fresh(output) && output.machine == Run(events[..i])
    {
      assert events[..i + 1][..i] == events[..i];
      output.Handle(events[i]);
    }
    assert events[..|events|] == events;
    text := output.text;
  }
}
