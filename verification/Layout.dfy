/** What holds of the transcript after every sequence of terminal events, whatever the styles. */
module Layout {
  import opened Sgr
  import opened Transcript

  ghost predicate SameLayout(s: State, d: Screen) {
    && WellFormed(s)
    && Erased(s.text[..s.lineStart]) == Chars(d.done)
    && Erased(s.text[s.lineStart..]) == Chars(d.line)
    && s.pendingCr == d.cr
    && Flat(s.active) == d.style
    && (s.restore ==> forall i | s.lineStart <= i < |s.text| :: s.text[i].Seq?)
  }

  /** Text written after the line start only extends the current line. */
  lemma Extend(s: State, more: seq<Tok>)
    requires WellFormed(s)
    ensures (s.text + more)[..s.lineStart] == s.text[..s.lineStart]
    ensures (s.text + more)[s.lineStart..] == s.text[s.lineStart..] + more
    ensures Erased((s.text + more)[s.lineStart..]) == Erased(s.text[s.lineStart..]) + Erased(more)
  {
    ErasedConcat(s.text[s.lineStart..], more);
  }

  lemma ClearedLayout(s: State, d: Screen)
    requires SameLayout(s, d)
    ensures SameLayout(Cleared(s).(pendingCr := false), d.(line := [], cr := false))
  {
    var s' := Cleared(s);
    assert s'.text[..s'.lineStart] == s.text[..s.lineStart];
    assert s'.text[s'.lineStart..] == [];
  }

  lemma RestoredLayout(s: State, d: Screen)
    requires SameLayout(s, d)
    ensures SameLayout(Restored(s), d)
  {
    RestorationShowsNothing(s.active);
    Extend(s, RestoreToks(s.active));
    NothingAdded(Erased(s.text[s.lineStart..]));
  }

  lemma RestorationShowsNothing(active: seq<seq<Param>>)
    ensures Erased(RestoreToks(active)) == ""
  {
    SequencesShowNothing([], RestoreToks(active));
  }

  lemma NothingAdded(s: string)
    ensures s + "" == s
  {
  }

  lemma PreparedLayout(s: State, d: Screen)
    requires SameLayout(s, d)
    ensures SameLayout(Prepared(s), d.(line := if d.cr then [] else d.line, cr := false))
    ensures !Prepared(s).restore && !Prepared(s).pendingCr
  {
    var s' := if s.pendingCr then Cleared(s).(pendingCr := false) else s;
    var d' := d.(line := if d.cr then [] else d.line, cr := false);
    ClearedLayout(s, d);
    RestoredLayout(s', d');
  }

  lemma PutLayout(s: State, d: Screen, c: char)
    requires SameLayout(s, d)
    ensures SameLayout(Put(s, c), Write(d, c))
  {
    PreparedLayout(s, d);
    var s' := Prepared(s);
    Extend(s', [Ch(c)]);
    assert Erased([Ch(c)]) == [c];
    assert Chars(Write(d, c).line) == Chars(if d.cr then [] else d.line) + [c];
  }

  lemma NewlineLayout(s: State, d: Screen)
    requires SameLayout(s, d)
    ensures SameLayout(Newline(s), Edit(d, Execute(LF)))
  {
    var s' := Newline(s);
    var line := s.text[s.lineStart..];
    assert s.text == s.text[..s.lineStart] + line;
    ErasedConcat(s.text[..s.lineStart], line);
    ErasedConcat(s.text, [Ch('\n')]);
    assert Erased([Ch('\n')]) == "\n";
    assert s'.text[..s'.lineStart] == s'.text;
    assert Chars(Edit(d, Execute(LF)).done) == Chars(d.done) + Chars(d.line) + "\n";
  }

  lemma SgrLayout(s: State, d: Screen, ps: seq<Param>)
    requires SameLayout(s, d)
    ensures SameLayout(PushSgr(s, ps), d.(style := Apply(d.style, ps)))
  {
    PreparedLayout(s, d);
    var s' := if s.pendingCr then s else Prepared(s);
    if ps != [] {
      PushedLayout(s', d, ps);
    }
  }

  lemma PushedLayout(s: State, d: Screen, ps: seq<Param>)
    requires SameLayout(s, d) && ps != []
    ensures SameLayout(Pushed(s, ps), d.(style := Apply(d.style, ps)))
  {
    NextActiveStyle(s.active, ps);
    Extend(s, [Seq(ps)]);
    SequencesShowNothing([], [Seq(ps)]);
    NothingAdded(Erased(s.text[s.lineStart..]));
  }

  lemma StepLayout(s: State, d: Screen, e: Event)
    requires SameLayout(s, d)
    ensures SameLayout(Step(s, e), Edit(d, e))
  {
    match e
    case Print(c) => PutLayout(s, d, c);
    case Execute(b) =>
      if b == LF {
        NewlineLayout(s, d);
      } else if b == TAB {
        PutLayout(s, d, '\t');
      }
    case Csi(ps, _, _, _) =>
      if IsSgr(e) {
        SgrLayout(s, d, ps);
      } else if IsErase(e) {
        ClearedLayout(s, d);
      }
  }

  lemma {:induction false} RunLayout(es: seq<Event>)
    ensures SameLayout(Run(es), Edited(es))
  {
    if es != [] {
      RunLayout(es[..|es| - 1]);
      StepLayout(Run(es[..|es| - 1]), Edited(es[..|es| - 1]), es[|es| - 1]);
    }
  }

  /** With SGR erased, the transcript is what the line editor shows. */
  lemma TranscriptIsLineEditor(es: seq<Event>)
    ensures Erased(Run(es).text) == Chars(Edited(es).done + Edited(es).line)
  {
    RunLayout(es);
    var s, d := Run(es), Edited(es);
    ErasedConcat(s.text[..s.lineStart], s.text[s.lineStart..]);
    assert s.text[..s.lineStart] + s.text[s.lineStart..] == s.text;
    assert Chars(d.done + d.line) == Chars(d.done) + Chars(d.line);
  }

  // ---- committed text ----

  lemma StepKeepsCommitted(s: State, e: Event)
    requires WellFormed(s)
    ensures s.lineStart <= Step(s, e).lineStart
    ensures s.text[..s.lineStart] <= Step(s, e).text
  {
    Extend(s, []);
  }

  /** What lies before the line start is never altered again, however the run continues. */
  lemma {:induction false} CommittedForever(es: seq<Event>, more: seq<Event>)
    ensures Run(es).lineStart <= Run(es + more).lineStart
    ensures Run(es).text[..Run(es).lineStart] <= Run(es + more).text[..Run(es + more).lineStart]
  {
    if more == [] {
      assert es + more == es;
    } else {
      var init := more[..|more| - 1];
      assert (es + more)[..|es + more| - 1] == es + init;
      CommittedForever(es, init);
      RunLayout(es + init);
      StepKeepsCommitted(Run(es + init), more[|more| - 1]);
    }
  }

  ghost predicate LineStartPlaced(s: State) {
    && Bounded(s)
    && (s.lineStart == 0 || s.text[s.lineStart - 1] == Ch('\n'))
    && forall i | s.lineStart <= i < |s.text| :: s.text[i] != Ch('\n')
  }

  lemma PutPlacesLineStart(s: State, c: char)
    requires LineStartPlaced(s) && c != '\n'
    ensures LineStartPlaced(Put(s, c))
  {
  }

  lemma StepPlacesLineStart(s: State, e: Event)
    requires LineStartPlaced(s)
    ensures LineStartPlaced(Step(s, e))
  {
    if e.Print? {
      PutPlacesLineStart(s, e.c);
    } else if e == Execute(TAB) {
      PutPlacesLineStart(s, '\t');
    }
  }

  /** The line start sits just after the last newline of the transcript. */
  lemma {:induction false} LineStartAfterLastNewline(es: seq<Event>)
    ensures LineStartPlaced(Run(es))
  {
    if es != [] {
      LineStartAfterLastNewline(es[..|es| - 1]);
      StepPlacesLineStart(Run(es[..|es| - 1]), es[|es| - 1]);
    }
  }
}
