/**
  The transcript machine over tokens, and the line editor it is compared with.

  A token is a printed character or one SGR sequence; `Terminal` shows that the string kept by the
  program is always the rendering of this machine's tokens.  The reference is `Screen`: a line editor
  that remembers for every character the SGR parameters in force when it was printed.
 */
module Transcript {
  import opened Sgr
  import opened Wrappers

  datatype Tok = Ch(c: char) | Seq(ps: seq<Param>)

  /** Graphic rendition in force: the parameters received since the last `[0]`. */
  type Style = seq<Param>

  const RESET: Param := [0]

  // ---- replaying SGR ----

  function ApplyOne(style: Style, p: Param): Style {
    if p == RESET then [] else style + [p]
  }

  function Apply(style: Style, ps: seq<Param>): Style {
    if ps == [] then style else ApplyOne(Apply(style, ps[..|ps| - 1]), ps[|ps| - 1])
  }

  function ReplayFrom(style: Style, text: seq<Tok>): Style {
    if text == [] then style
    else
      var before := ReplayFrom(style, text[..|text| - 1]);
      match text[|text| - 1]
      case Ch(_) => before
      case Seq(ps) => Apply(before, ps)
  }

  function Replay(text: seq<Tok>): Style {
    ReplayFrom([], text)
  }

  lemma {:induction false} ApplyConcat(style: Style, a: seq<Param>, b: seq<Param>)
    ensures Apply(style, a + b) == Apply(Apply(style, a), b)
  {
    if b == [] {
      assert a + b == a;
    } else {
      assert (a + b)[..|a + b| - 1] == a + b[..|b| - 1];
      ApplyConcat(style, a, b[..|b| - 1]);
    }
  }

  lemma {:induction false} ReplayConcat(style: Style, a: seq<Tok>, b: seq<Tok>)
    ensures ReplayFrom(style, a + b) == ReplayFrom(ReplayFrom(style, a), b)
  {
    if b == [] {
      assert a + b == a;
    } else {
      assert (a + b)[..|a + b| - 1] == a + b[..|b| - 1];
      ReplayConcat(style, a, b[..|b| - 1]);
    }
  }

  lemma {:induction false} ApplyWithoutReset(style: Style, ps: seq<Param>)
    requires RESET !in ps
    ensures Apply(style, ps) == style + ps
  {
    if ps == [] {
      assert style + ps == style;
    } else {
      ApplyWithoutReset(style, ps[..|ps| - 1]);
      assert style + ps[..|ps| - 1] + [ps[|ps| - 1]] == style + ps;
    }
  }

  // ---- the active style, kept as a list of sequences ----

  function Flat(seqs: seq<seq<Param>>): Style {
    if seqs == [] then [] else Flat(seqs[..|seqs| - 1]) + seqs[|seqs| - 1]
  }

  function Toks(seqs: seq<seq<Param>>): (text: seq<Tok>)
    ensures |text| == |seqs|
  {
    seq(|seqs|, i requires 0 <= i < |seqs| => Seq(seqs[i]))
  }

  /** What `push_sgr` stores: non-empty sequences, none containing a reset. */
  ghost predicate Stored(seqs: seq<seq<Param>>) {
    forall i | 0 <= i < |seqs| :: seqs[i] != [] && RESET !in seqs[i]
  }

  lemma {:induction false} ReplayToks(style: Style, seqs: seq<seq<Param>>)
    requires Stored(seqs)
    ensures ReplayFrom(style, Toks(seqs)) == style + Flat(seqs)
  {
    if seqs == [] {
      assert style + Flat(seqs) == style;
    } else {
      var init, last := seqs[..|seqs| - 1], seqs[|seqs| - 1];
      assert Toks(seqs)[..|seqs| - 1] == Toks(init);
      ReplayToks(style, init);
      ApplyWithoutReset(style + Flat(init), last);
      assert style + Flat(init) + last == style + Flat(seqs);
    }
  }

  /** One past the index of the last reset in `ps`, or 0 without one. */
  function AfterLastReset(ps: seq<Param>): (k: nat)
    ensures k <= |ps| && RESET !in ps[k..]
    ensures k > 0 ==> ps[k - 1] == RESET
    ensures k == 0 <==> RESET !in ps
  {
    if ps == [] then 0
    else if ps[|ps| - 1] == RESET then |ps|
    else
      var k := AfterLastReset(ps[..|ps| - 1]);
      assert ps[k..] == ps[..|ps| - 1][k..] + [ps[|ps| - 1]];
      assert ps == ps[..|ps| - 1] + [ps[|ps| - 1]];
      k
  }

  function NextActive(active: seq<seq<Param>>, ps: seq<Param>): seq<seq<Param>>
    requires ps != []
  {
    var k := AfterLastReset(ps);
    if k == 0 then active + [ps]
    else if k == |ps| then []
    else [ps[k..]]
  }

  lemma ApplyAfterReset(style: Style, ps: seq<Param>)
    requires RESET in ps
    ensures Apply(style, ps) == ps[AfterLastReset(ps)..]
  {
    var k := AfterLastReset(ps);
    assert ps[..k] + ps[k..] == ps;
    ApplyConcat(style, ps[..k], ps[k..]);
    ApplyWithoutReset([], ps[k..]);
    assert [] + ps[k..] == ps[k..];
  }

  lemma NextActiveStored(active: seq<seq<Param>>, ps: seq<Param>)
    requires Stored(active) && ps != []
    ensures Stored(NextActive(active, ps))
  {
  }

  lemma NextActiveStyle(active: seq<seq<Param>>, ps: seq<Param>)
    requires Stored(active) && ps != []
    ensures Stored(NextActive(active, ps))
    ensures Flat(NextActive(active, ps)) == Apply(Flat(active), ps)
  {
    NextActiveStored(active, ps);
    if RESET in ps {
      ApplyAfterReset(Flat(active), ps);
      FlatRest(ps, AfterLastReset(ps));
    } else {
      ApplyWithoutReset(Flat(active), ps);
      FlatSnoc(active, ps);
    }
  }

  lemma FlatRest(ps: seq<Param>, k: nat)
    requires k <= |ps|
    ensures Flat(if k == |ps| then [] else [ps[k..]]) == ps[k..]
  {
    if k < |ps| {
      FlatOne(ps[k..]);
    }
  }

  lemma FlatOne(ps: seq<Param>)
    ensures Flat([ps]) == ps
  {
    assert Flat([ps]) == Flat([]) + ps;
  }

  lemma FlatSnoc(seqs: seq<seq<Param>>, ps: seq<Param>)
    ensures Flat(seqs + [ps]) == Flat(seqs) + ps
  {
    assert (seqs + [ps])[..|seqs|] == seqs;
  }

  // ---- events and the machine ----

  /** The parser hands C0 controls to `execute`, so a printed character is never one. */
  type Printable = c: char | c != '\n' && c != ESC witness 'x'

  const LF: byte := 10
  const CR: byte := 13
  const TAB: byte := 9

  datatype Event =
    | Print(c: Printable)
    | Execute(control: byte)
    | Csi(params: seq<Param>, intermediates: seq<byte>, ignored: bool, action: char)

  datatype State = State(
    text: seq<Tok>,
    lineStart: nat,
    pendingCr: bool,
    active: seq<seq<Param>>,
    lineStartStyle: seq<seq<Param>>,
    restore: bool)

  const INIT := State([], 0, false, [], [], false)

  ghost predicate WellFormed(s: State) {
    && Bounded(s)
    && Stored(s.active)
    && Stored(s.lineStartStyle)
  }

  /** The line start is inside the text, as truncating to it requires. */
  predicate Bounded(s: State) {
    s.lineStart <= |s.text|
  }

  function Cleared(s: State): (s': State)
    requires Bounded(s)
    ensures s'.lineStart == s.lineStart == |s'.text|
  {
    s.(text := s.text[..s.lineStart], restore := s.active != s.lineStartStyle)
  }

  /** A full reset followed by the active style. */
  function RestoreToks(active: seq<seq<Param>>): seq<Tok> {
    [Seq([RESET])] + Toks(active)
  }

  function Restored(s: State): (s': State)
    requires Bounded(s)
    ensures s'.lineStart == s.lineStart && s.text <= s'.text
  {
    s.(text := s.text + RestoreToks(s.active), restore := false)
  }

  function Prepared(s: State): (s': State)
    requires Bounded(s)
    ensures s'.lineStart == s.lineStart <= |s'.text|
  {
    var s' := if s.pendingCr then Cleared(s).(pendingCr := false) else s;
    if s'.restore then Restored(s') else s'
  }

  function Put(s: State, c: char): (s': State)
    requires Bounded(s)
    ensures s'.lineStart == s.lineStart <= |s'.text|
  {
    var s' := Prepared(s);
    s'.(text := s'.text + [Ch(c)])
  }

  function Newline(s: State): (s': State)
    ensures s'.lineStart == |s'.text| == |s.text| + 1
  {
    s.(pendingCr := false,
       text := s.text + [Ch('\n')],
       lineStart := |s.text| + 1,
       lineStartStyle := if s.restore then s.lineStartStyle else s.active)
  }

  function Pushed(s: State, ps: seq<Param>): (s': State)
    requires Bounded(s) && ps != []
    ensures s'.lineStart == s.lineStart && s.text <= s'.text
  {
    s.(text := s.text + [Seq(ps)], active := NextActive(s.active, ps))
  }

  function PushSgr(s: State, ps: seq<Param>): (s': State)
    requires Bounded(s)
    ensures s'.lineStart == s.lineStart <= |s'.text|
  {
    var s' := if s.pendingCr then s else Prepared(s);
    if ps == [] then s' else Pushed(s', ps)
  }

  /** EL mode: the first number of the first parameter, 0 when there is none. */
  function EraseMode(ps: seq<Param>): u16 {
    if ps != [] then ps[0][0] else 0
  }

  function EraseLine(s: State, ps: seq<Param>): (s': State)
    requires Bounded(s)
    ensures s'.lineStart == s.lineStart <= |s'.text|
  {
    if s.pendingCr || EraseMode(ps) == 1 || EraseMode(ps) == 2 then Cleared(s).(pendingCr := false) else s
  }

  predicate IsSgr(e: Event) {
    e.Csi? && !e.ignored && e.intermediates == [] && e.action == 'm'
  }

  predicate IsErase(e: Event) {
    e.Csi? && !e.ignored && e.intermediates == [] && e.action == 'K'
  }

  function Step(s: State, e: Event): (s': State)
    requires Bounded(s)
    ensures Bounded(s') && s.lineStart <= s'.lineStart
  {
    match e
    case Print(c) => Put(s, c)
    case Execute(b) =>
      if b == LF then Newline(s)
      else if b == CR then s.(pendingCr := true)
      else if b == TAB then Put(s, '\t')
      else s
    case Csi(ps, _, _, _) =>
      if IsSgr(e) then PushSgr(s, ps)
      else if IsErase(e) then EraseLine(s, ps)
      else s
  }

  lemma StepWellFormed(s: State, e: Event)
    requires WellFormed(s)
    ensures WellFormed(Step(s, e))
  {
    if IsSgr(e) && e.params != [] {
      NextActiveStyle(s.active, e.params);
    }
  }

  function RunFrom(s: State, es: seq<Event>): (s': State)
    requires Bounded(s)
    ensures Bounded(s')
  {
    if es == [] then s else Step(RunFrom(s, es[..|es| - 1]), es[|es| - 1])
  }

  function Run(es: seq<Event>): (s: State)
    ensures Bounded(s)
  {
    RunFrom(INIT, es)
  }

  lemma {:induction false} RunConcat(s: State, a: seq<Event>, b: seq<Event>)
    requires Bounded(s)
    ensures RunFrom(s, a + b) == RunFrom(RunFrom(s, a), b)
  {
    if b == [] {
      assert a + b == a;
    } else {
      assert (a + b)[..|a + b| - 1] == a + b[..|b| - 1];
      RunConcat(s, a, b[..|b| - 1]);
    }
  }

  // ---- the reference line editor ----

  /** A character with its style; a newline shows no style. */
  datatype Cell = Cell(c: char, style: Style)

  datatype Screen = Screen(done: seq<Cell>, line: seq<Cell>, cr: bool, style: Style)

  const BLANK := Screen([], [], false, [])

  function MakeCell(c: char, style: Style): Cell {
    Cell(c, if c == '\n' then [] else style)
  }

  function Write(d: Screen, c: char): Screen {
    d.(line := (if d.cr then [] else d.line) + [MakeCell(c, d.style)], cr := false)
  }

  /** Line feed, return, tab, SGR and EL as a terminal takes them; everything else is ignored. */
  function Edit(d: Screen, e: Event): Screen {
    match e
    case Print(c) => Write(d, c)
    case Execute(b) =>
      if b == 0x0A then d.(done := d.done + d.line + [MakeCell('\n', [])], line := [], cr := false)
      else if b == 0x0D then d.(cr := true)
      else if b == 0x09 then Write(d, '\t')
      else d
    case Csi(ps, intermediates, ignored, action) =>
      if ignored || intermediates != [] then d
      else if action == 'm' then d.(style := Apply(d.style, ps))
      else if action == 'K' && (d.cr || (ps != [] && ps[0][0] in {1, 2})) then d.(line := [], cr := false)
      else d
  }

  function Edited(es: seq<Event>): Screen {
    if es == [] then BLANK else Edit(Edited(es[..|es| - 1]), es[|es| - 1])
  }

  // ---- what a transcript shows ----

  function View(text: seq<Tok>): seq<Cell> {
    if text == [] then []
    else
      var init := text[..|text| - 1];
      match text[|text| - 1]
      case Ch(c) => View(init) + [MakeCell(c, Replay(init))]
      case Seq(_) => View(init)
  }

  /** The transcript with its SGR sequences erased. */
  function Erased(text: seq<Tok>): string {
    if text == [] then ""
    else
      var init := Erased(text[..|text| - 1]);
      match text[|text| - 1]
      case Ch(c) => init + [c]
      case Seq(_) => init
  }

  function Chars(cells: seq<Cell>): (s: string)
    ensures |s| == |cells|
  {
    seq(|cells|, i requires 0 <= i < |cells| => cells[i].c)
  }

  lemma {:induction false} ErasedConcat(a: seq<Tok>, b: seq<Tok>)
    ensures Erased(a + b) == Erased(a) + Erased(b)
  {
    if b == [] {
      assert a + b == a;
    } else {
      assert (a + b)[..|a + b| - 1] == a + b[..|b| - 1];
      ErasedConcat(a, b[..|b| - 1]);
    }
  }

  lemma {:induction false} ErasedIsView(text: seq<Tok>)
    ensures Erased(text) == Chars(View(text))
  {
    if text != [] {
      ErasedIsView(text[..|text| - 1]);
    }
  }

  lemma {:induction false} SequencesShowNothing(text: seq<Tok>, more: seq<Tok>)
    requires forall i | 0 <= i < |more| :: more[i].Seq?
    ensures View(text + more) == View(text)
    ensures Erased(more) == ""
  {
    if more == [] {
      assert text + more == text;
    } else {
      assert (text + more)[..|text + more| - 1] == text + more[..|more| - 1];
      SequencesShowNothing(text, more[..|more| - 1]);
    }
  }

  lemma ViewPut(text: seq<Tok>, c: char)
    ensures View(text + [Ch(c)]) == View(text) + [MakeCell(c, Replay(text))]
    ensures Replay(text + [Ch(c)]) == Replay(text)
  {
    assert (text + [Ch(c)])[..|text|] == text;
  }
}
