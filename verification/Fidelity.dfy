/**
  Style fidelity: every character left in the transcript is shown in the style it was printed in.

  It holds of every run except that a newline may arrive while a style restoration is still pending
  and SGR sequences have been buffered behind it.  `NewlineKeepsLineStyle` is the exact guard.
 */
module Fidelity {
  import opened Sgr
  import opened Transcript
  import opened Layout

  ghost predicate Faithful(es: seq<Event>) {
    View(Run(es).text) == Edited(es).done + Edited(es).line
  }

  /** Either no restoration is pending, or the SGR buffered since the line start changes nothing. */
  predicate NewlineKeepsLineStyle(s: State)
    requires Bounded(s)
  {
    s.restore ==> ReplayFrom(Flat(s.lineStartStyle), s.text[s.lineStart..]) == Flat(s.lineStartStyle)
  }

  /** Every newline of the run meets its guard. */
  predicate Guarded(es: seq<Event>) {
    es != [] ==>
      && Guarded(es[..|es| - 1])
      && (es[|es| - 1] == Execute(LF) ==> NewlineKeepsLineStyle(Run(es[..|es| - 1])))
  }

  ghost predicate SameStyle(s: State, d: Screen) {
    && SameLayout(s, d)
    && View(s.text[..s.lineStart]) == d.done
    && View(s.text) == d.done + d.line
    && Replay(s.text[..s.lineStart]) == Flat(s.lineStartStyle)
    && (!s.restore ==> Replay(s.text) == Flat(s.active))
  }

  lemma ClearedStyle(s: State, d: Screen)
    requires SameStyle(s, d)
    ensures SameStyle(Cleared(s).(pendingCr := false), d.(line := [], cr := false))
  {
    ClearedLayout(s, d);
    var s' := Cleared(s);
    assert s'.text[..s'.lineStart] == s'.text;
    assert d.done + [] == d.done;
  }

  /** Restoring the style writes a reset and the active style, and shows nothing. */
  lemma RestoredStyle(s: State)
    requires WellFormed(s)
    ensures Replay(Restored(s).text) == Flat(s.active)
    ensures View(Restored(s).text) == View(s.text)
  {
    var reset := [Seq([RESET])];
    ReplayConcat([], s.text, RestoreToks(s.active));
    ReplayConcat(Replay(s.text), reset, Toks(s.active));
    assert reset[..0] == [] && Apply(Replay(s.text), [RESET]) == [];
    ReplayToks([], s.active);
    assert [] + Flat(s.active) == Flat(s.active);
    SequencesShowNothing(s.text, RestoreToks(s.active));
  }

  lemma PreparedStyle(s: State, d: Screen)
    requires SameStyle(s, d)
    ensures SameStyle(Prepared(s), d.(line := if d.cr then [] else d.line, cr := false))
    ensures !Prepared(s).restore
  {
    PreparedLayout(s, d);
    ClearedStyle(s, d);
    var s' := if s.pendingCr then Cleared(s).(pendingCr := false) else s;
    RestoredStyle(s');
    assert Prepared(s).text[..s.lineStart] == s.text[..s.lineStart];
  }

  lemma PutStyle(s: State, d: Screen, c: char)
    requires SameStyle(s, d)
    ensures SameStyle(Put(s, c), Write(d, c))
  {
    PutLayout(s, d, c);
    PreparedStyle(s, d);
    var s' := Prepared(s);
    ViewPut(s'.text, c);
    assert (s'.text + [Ch(c)])[..s.lineStart] == s'.text[..s.lineStart];
    assert d.done + Write(d, c).line == d.done + (if d.cr then [] else d.line) + [MakeCell(c, d.style)];
  }

  lemma NewlineStyle(s: State, d: Screen)
    requires SameStyle(s, d)
    requires NewlineKeepsLineStyle(s)
    ensures SameStyle(Newline(s), Edit(d, Execute(LF)))
  {
    NewlineLayout(s, d);
    ViewPut(s.text, '\n');
    ReplayConcat([], s.text[..s.lineStart], s.text[s.lineStart..]);
    assert s.text[..s.lineStart] + s.text[s.lineStart..] == s.text;
    var s' := Newline(s);
    assert s'.text[..s'.lineStart] == s'.text;
    assert Edit(d, Execute(LF)).done + [] == d.done + d.line + [MakeCell('\n', [])];
  }

  lemma PushedStyle(s: State, d: Screen, ps: seq<Param>)
    requires SameStyle(s, d) && ps != []
    requires SameLayout(Pushed(s, ps), d.(style := Apply(d.style, ps)))
    ensures SameStyle(Pushed(s, ps), d.(style := Apply(d.style, ps)))
  {
    SequencesShowNothing(s.text, [Seq(ps)]);
    assert (s.text + [Seq(ps)])[..|s.text|] == s.text;
    assert (s.text + [Seq(ps)])[..s.lineStart] == s.text[..s.lineStart];
  }

  lemma SgrStyle(s: State, d: Screen, ps: seq<Param>)
    requires SameStyle(s, d)
    ensures SameStyle(PushSgr(s, ps), d.(style := Apply(d.style, ps)))
  {
    SgrLayout(s, d, ps);
    PreparedStyle(s, d);
    var s' := if s.pendingCr then s else Prepared(s);
    if ps != [] {
      PushedStyle(s', d, ps);
    }
  }

  lemma StepStyle(s: State, d: Screen, e: Event)
    requires SameStyle(s, d)
    requires e == Execute(LF) ==> NewlineKeepsLineStyle(s)
    ensures SameStyle(Step(s, e), Edit(d, e))
  {
    StepLayout(s, d, e);
    match e
    case Print(c) => PutStyle(s, d, c);
    case Execute(b) =>
      if b == LF {
        NewlineStyle(s, d);
      } else if b == TAB {
        PutStyle(s, d, '\t');
      }
    case Csi(ps, _, _, _) =>
      if IsSgr(e) {
        SgrStyle(s, d, ps);
      } else if IsErase(e) {
        ClearedStyle(s, d);
      }
  }

  lemma {:induction false} GuardedRunStyle(es: seq<Event>)
    requires Guarded(es)
    ensures SameStyle(Run(es), Edited(es))
  {
    if es != [] {
      var init := es[..|es| - 1];
      GuardedRunStyle(init);
      StepStyle(Run(init), Edited(init), es[|es| - 1]);
    }
  }

  lemma SnocRun(es: seq<Event>, e: Event)
    ensures Run(es + [e]) == Step(Run(es), e)
    ensures Guarded(es + [e]) <==> Guarded(es) && (e == Execute(LF) ==> NewlineKeepsLineStyle(Run(es)))
  {
    assert (es + [e])[..|es|] == es;
  }

  lemma GuardedRunIsFaithful(es: seq<Event>)
    requires Guarded(es)
    ensures Faithful(es)
  {
    GuardedRunStyle(es);
  }

  // ---- the plain condition on SGR events ----

  /** No SGR is handled while a carriage return and a style restoration are both pending. */
  predicate NoBlindSgr(es: seq<Event>) {
    es != [] ==>
      && NoBlindSgr(es[..|es| - 1])
      && (IsSgr(es[|es| - 1]) ==> var s := Run(es[..|es| - 1]); !(s.pendingCr && s.restore))
  }

  /** A style is only owed to an empty line. */
  predicate OwesOnlyEmptyLine(s: State) {
    s.restore ==> s.lineStart == |s.text|
  }

  lemma StepOwesOnlyEmptyLine(s: State, e: Event)
    requires Bounded(s) && OwesOnlyEmptyLine(s)
    requires IsSgr(e) ==> !(s.pendingCr && s.restore)
    ensures OwesOnlyEmptyLine(Step(s, e))
  {
  }

  lemma EmptyLineKeepsStyle(s: State)
    requires Bounded(s) && OwesOnlyEmptyLine(s)
    ensures NewlineKeepsLineStyle(s)
  {
  }

  lemma {:induction false} NoBlindSgrIsGuarded(es: seq<Event>)
    requires NoBlindSgr(es)
    ensures Guarded(es)
    ensures OwesOnlyEmptyLine(Run(es))
  {
    if es != [] {
      var init := es[..|es| - 1];
      NoBlindSgrIsGuarded(init);
      EmptyLineKeepsStyle(Run(init));
      StepOwesOnlyEmptyLine(Run(init), es[|es| - 1]);
    }
  }

  /** Without such an SGR, every character left is shown in the style it was printed in. */
  lemma NoBlindSgrIsFaithful(es: seq<Event>)
    requires NoBlindSgr(es)
    ensures Faithful(es)
  {
    NoBlindSgrIsGuarded(es);
    GuardedRunIsFaithful(es);
  }

  // ---- the guard is exact ----

  function SgrEvent(ps: seq<Param>): Event {
    Csi(ps, [], false, 'm')
  }

  function SgrEvents(seqs: seq<seq<Param>>): (es: seq<Event>)
    ensures |es| == |seqs|
  {
    seq(|seqs|, i requires 0 <= i < |seqs| => SgrEvent(seqs[i]))
  }

  predicate NoNewline(es: seq<Event>) {
    Execute(LF) !in es
  }

  lemma {:induction false} QuietTailGuarded(es: seq<Event>, ks: seq<Event>)
    requires Guarded(es) && NoNewline(ks)
    ensures Guarded(es + ks)
  {
    if ks == [] {
      assert es + ks == es;
    } else {
      assert (es + ks)[..|es + ks| - 1] == es + ks[..|ks| - 1];
      QuietTailGuarded(es, ks[..|ks| - 1]);
    }
  }

  /** Sending sequences after a reset rebuilds any stored style, sequence by sequence. */
  lemma {:induction false} Rebuild(s: State, seqs: seq<seq<Param>>)
    requires WellFormed(s) && Stored(seqs)
    requires !s.pendingCr && !s.restore && s.active == []
    ensures var s' := RunFrom(s, SgrEvents(seqs));
      s' == s.(text := s.text + Toks(seqs), active := seqs)
  {
    if seqs == [] {
      assert s.text + Toks(seqs) == s.text;
    } else {
      var init, last := seqs[..|seqs| - 1], seqs[|seqs| - 1];
      assert SgrEvents(seqs)[..|seqs| - 1] == SgrEvents(init);
      Rebuild(s, init);
      assert seqs == init + [last];
      assert s.text + Toks(init) + [Seq(last)] == s.text + Toks(seqs);
    }
  }

  /** Set the style of the line start again, print, return and overwrite. */
  function Spoiler(lineStartStyle: seq<seq<Param>>): seq<Event> {
    [SgrEvent([RESET])] + SgrEvents(lineStartStyle) + [Print('x'), Execute(CR), Print('y')]
  }

  lemma AfterReset(s: State)
    requires WellFormed(s) && !s.pendingCr
    ensures var s' := RunFrom(s, [SgrEvent([RESET])]);
      && WellFormed(s') && !s'.pendingCr && !s'.restore && s'.active == []
      && s'.lineStart == s.lineStart && s'.lineStartStyle == s.lineStartStyle
      && s.text <= s'.text
  {
    assert [SgrEvent([RESET])][..0] == [];
    StepWellFormed(s, SgrEvent([RESET]));
    assert RunFrom(s, [SgrEvent([RESET])]) == Step(s, SgrEvent([RESET]));
    assert AfterLastReset([RESET]) == 1;
  }

  lemma Overwrite(s: State)
    requires WellFormed(s) && !s.pendingCr && !s.restore && s.active == s.lineStartStyle
    ensures RunFrom(s, [Print('x'), Execute(CR), Print('y')]).text == s.text[..s.lineStart] + [Ch('y')]
  {
    var ks := [Print('x'), Execute(CR), Print('y')];
    assert ks[..2][..1] == [Print('x')] && ks[..2] == [Print('x'), Execute(CR)];
    assert [Print('x')][..0] == [];
    var s1 := Step(s, Print('x'));
    assert RunFrom(s, [Print('x')]) == s1;
    var s2 := Step(s1, Execute(CR));
    assert RunFrom(s, ks[..2]) == s2;
    assert RunFrom(s, ks) == Step(s2, Print('y'));
    assert s2.text[..s.lineStart] == s.text[..s.lineStart];
  }

  /** After any newline, the spoiler's last character is shown in the style of the line start. */
  lemma SpoilerText(s: State)
    requires WellFormed(s) && !s.pendingCr && s.lineStart == |s.text|
    ensures RunFrom(s, Spoiler(s.lineStartStyle)).text == s.text + [Ch('y')]
  {
    var L := s.lineStartStyle;
    var a, b, c := [SgrEvent([RESET])], SgrEvents(L), [Print('x'), Execute(CR), Print('y')];
    RunConcat(s, a + b, c);
    RunConcat(s, a, b);
    AfterReset(s);
    var s1 := RunFrom(s, a);
    Rebuild(s1, L);
    var s2 := RunFrom(s1, b);
    Overwrite(s2);
    assert s2.text[..s.lineStart] == s.text;
  }

  lemma EditSnoc(es: seq<Event>, e: Event)
    ensures Edited(es + [e]) == Edit(Edited(es), e)
  {
    assert (es + [e])[..|es|] == es;
  }

  lemma EventsSnoc(es: seq<Event>, seqs: seq<seq<Param>>)
    requires seqs != []
    ensures es + SgrEvents(seqs) == es + SgrEvents(seqs[..|seqs| - 1]) + [SgrEvent(seqs[|seqs| - 1])]
  {
  }

  lemma {:induction false} EditedSequences(es: seq<Event>, seqs: seq<seq<Param>>)
    requires Stored(seqs)
    ensures Edited(es + SgrEvents(seqs)).style == Edited(es).style + Flat(seqs)
  {
    if seqs == [] {
      assert es + SgrEvents(seqs) == es;
      assert Edited(es).style + Flat(seqs) == Edited(es).style;
    } else {
      var init, last := seqs[..|seqs| - 1], seqs[|seqs| - 1];
      var style := Edited(es).style;
      EditedSequences(es, init);
      EventsSnoc(es, seqs);
      EditSnoc(es + SgrEvents(init), SgrEvent(last));
      ApplyWithoutReset(style + Flat(init), last);
      assert style + Flat(init) + last == style + (Flat(init) + last);
    }
  }

  lemma StyleSetAgain(es: seq<Event>, L: seq<seq<Param>>)
    requires Stored(L)
    ensures Edited(es + [SgrEvent([RESET])] + SgrEvents(L)).style == Flat(L)
  {
    var a := es + [SgrEvent([RESET])];
    EditSnoc(es, SgrEvent([RESET]));
    assert Apply(Edited(es).style, [RESET]) == [];
    EditedSequences(a, L);
    assert [] + Flat(L) == Flat(L);
  }

  lemma OverwrittenLine(es: seq<Event>)
    ensures Edited(es + [Print('x'), Execute(CR), Print('y')]).line == [Cell('y', Edited(es).style)]
  {
    EditThree(es, Print('x'), Execute(CR), Print('y'));
  }

  lemma EditThree(es: seq<Event>, a: Event, b: Event, c: Event)
    ensures Edited(es + [a, b, c]) == Edit(Edit(Edit(Edited(es), a), b), c)
  {
    var one := es + [a];
    var two := one + [b];
    EditSnoc(es, a);
    EditSnoc(one, b);
    EditSnoc(two, c);
    assert es + [a, b, c] == two + [c];
  }

  /** The editor prints the spoiler's last character in the line-start style. */
  lemma SpoilerStyle(es: seq<Event>, L: seq<seq<Param>>)
    requires Stored(L)
    ensures var d := Edited(es + Spoiler(L));
      d.line == [Cell('y', Flat(L))]
  {
    var b := es + [SgrEvent([RESET])] + SgrEvents(L);
    StyleSetAgain(es, L);
    OverwrittenLine(b);
    assert es + Spoiler(L) == b + [Print('x'), Execute(CR), Print('y')];
  }

  lemma LastCellDiffers(es: seq<Event>, text: seq<Tok>, style: Style)
    requires Run(es).text == text + [Ch('y')] && Edited(es).line == [Cell('y', style)] && Replay(text) != style
    ensures !Faithful(es)
  {
    ViewPut(text, 'y');
    var shown, wanted := View(Run(es).text), Edited(es).done + Edited(es).line;
    assert shown[|shown| - 1] == Cell('y', Replay(text));
    assert wanted[|wanted| - 1] == Cell('y', style);
  }

  /** The newline commits a line whose style, replayed, is not the line-start style. */
  lemma StaleReplay(s: State)
    requires WellFormed(s) && s.restore && !NewlineKeepsLineStyle(s) && Replay(s.text[..s.lineStart]) == Flat(s.lineStartStyle)
    ensures Replay(Newline(s).text) != Flat(s.lineStartStyle)
  {
    ViewPut(s.text, '\n');
    ReplayConcat([], s.text[..s.lineStart], s.text[s.lineStart..]);
    assert s.text[..s.lineStart] + s.text[s.lineStart..] == s.text;
  }

  /** After a newline, the spoiler adds one character, in whatever style the transcript is in. */
  lemma SpoilerRun(es: seq<Event>)
    requires WellFormed(Run(es))
    ensures var s := Newline(Run(es));
      Run(es + [Execute(LF)] + Spoiler(s.lineStartStyle)).text == s.text + [Ch('y')]
  {
    var s := Run(es);
    SnocRun(es, Execute(LF));
    StepWellFormed(s, Execute(LF));
    RunConcat(INIT, es + [Execute(LF)], Spoiler(Newline(s).lineStartStyle));
    SpoilerText(Newline(s));
  }

  /** A newline that misses its guard leaves a transcript the spoiler makes unfaithful. */
  lemma StaleNewline(es: seq<Event>)
    requires Guarded(es) && !NewlineKeepsLineStyle(Run(es))
    ensures !Faithful(es + [Execute(LF)] + Spoiler(Run(es).lineStartStyle))
  {
    var s := Run(es);
    GuardedRunStyle(es);
    StaleReplay(s);
    SpoilerRun(es);
    SpoilerStyle(es + [Execute(LF)], s.lineStartStyle);
    LastCellDiffers(es + [Execute(LF)] + Spoiler(s.lineStartStyle), Newline(s).text, Flat(s.lineStartStyle));
  }

  /**
    The guard is exact: after a guarded run, a newline keeps every continuation without further
    newlines faithful if and only if it meets the guard.
   */
  lemma GuardIsExact(es: seq<Event>)
    requires Guarded(es)
    ensures NewlineKeepsLineStyle(Run(es)) <==> forall ks | NoNewline(ks) :: Faithful(es + [Execute(LF)] + ks)
  {
    var nl := es + [Execute(LF)];
    if NewlineKeepsLineStyle(Run(es)) {
      SnocRun(es, Execute(LF));
      forall ks | NoNewline(ks)
        ensures Faithful(nl + ks)
      {
        QuietTailGuarded(nl, ks);
        GuardedRunIsFaithful(nl + ks);
      }
    } else {
      StaleNewline(es);
      assert NoNewline(Spoiler(Run(es).lineStartStyle));
    }
  }

  // ---- a concrete run that misses the guard ----

  const RED: seq<Param> := [[31]]
  const BOLD: seq<Param> := [[1]]

  /** ESC[31m o EL2 CR ESC[1m */
  function BlindRun(): seq<Event> {
    [SgrEvent(RED)] + [Print('o')] + [Csi([[2]], [], false, 'K')] + [Execute(CR)] + [SgrEvent(BOLD)]
  }

  lemma BlindRunState()
    ensures Run(BlindRun()) == State([Seq(BOLD)], 0, true, [RED, BOLD], [], true)
    ensures Guarded(BlindRun())
  {
    var sgr, o, el, cr := SgrEvent(RED), Print('o'), Csi([[2]], [], false, 'K'), Execute(CR);
    assert RED[0][0] == 31 && BOLD[0][0] == 1;
    assert AfterLastReset(RED) == 0 && AfterLastReset(BOLD) == 0;
    assert [] + [sgr] == [sgr];
    SnocRun([], sgr);
    SnocRun([sgr], o);
    SnocRun([sgr] + [o], el);
    SnocRun([sgr] + [o] + [el], cr);
    SnocRun([sgr] + [o] + [el] + [cr], SgrEvent(BOLD));
    assert Run([sgr] + [o]) == State([Seq(RED), Ch('o')], 0, false, [RED], [], false);
    assert Run([sgr] + [o] + [el] + [cr]) == State([], 0, true, [RED], [], true);
  }

  lemma BlindRunMissesGuard()
    ensures Guarded(BlindRun()) && !NewlineKeepsLineStyle(Run(BlindRun()))
  {
    BlindRunState();
    var text := [Seq(BOLD)];
    assert text[0..] == text && text[..0] == [] && BOLD[..0] == [];
    assert BOLD[0][0] == 1;
    assert ReplayFrom([], text) == ApplyOne([], BOLD[0]) == [BOLD[0]];
  }

  /** After a newline, ESC[0m x CR y leaves `y` bold although it was printed plain. */
  lemma StaleStyleExample()
    ensures !Faithful(BlindRun() + [Execute(LF)] + Spoiler([]))
    ensures Spoiler([]) == [SgrEvent([RESET]), Print('x'), Execute(CR), Print('y')]
  {
    BlindRunMissesGuard();
    BlindRunState();
    StaleNewline(BlindRun());
  }
}
