/**
  A terminal of its own that reads the sanitized string from left to right, character by character.

  It knows nothing of how the string was written; that it finds exactly the machine's tokens ties the
  text (decimal numbers, separators, introducer and final byte) to the sequences it stands for.
 */
module Reader {
  import opened Wrappers
  import opened Sgr
  import opened Transcript
  import opened Terminal
  import opened Fidelity

  // ---- decimal numbers ----

  /** The number a decimal text denotes. */
  function Value(s: string): int {
    if s == "" then 0 else 10 * Value(s[..|s| - 1]) + (s[|s| - 1] as int - '0' as int)
  }

  lemma {:induction false} DigitsReadBack(n: nat)
    ensures Value(Digits(n)) == n
  {
    if n < 10 {
      assert Digits(n)[..0] == "";
    } else {
      DigitsReadBack(n / 10);
      assert Digits(n)[..|Digits(n)| - 1] == Digits(n / 10);
    }
  }

  /** A number is written without leading zeros. */
  lemma {:induction false} NoLeadingZero(n: nat)
    ensures Digits(n)[0] == '0' <==> n == 0
  {
    if n >= 10 {
      NoLeadingZero(n / 10);
    }
  }

  // ---- the terminal ----

  /** A sequence being read: finished parameters, finished subparameters of the next one, and a number. */
  datatype Pending = Pending(params: seq<seq<int>>, subs: seq<int>, number: int)

  datatype Mode = Ground | Escape | Sequence(pending: Pending)

  /** What has been read: a character, or the parameters of an SGR sequence. */
  datatype Item = Shown(c: char) | Rendition(params: seq<seq<int>>)

  datatype Reading = Reading(items: seq<Item>, mode: Mode)

  function Digested(p: Pending, c: char): Pending {
    if '0' <= c <= '9' then p.(number := 10 * p.number + (c as int - '0' as int))
    else if c == ':' then Pending(p.params, p.subs + [p.number], 0)
    else if c == ';' then Pending(p.params + [p.subs + [p.number]], [], 0)
    else p
  }

  function Advance(r: Reading, c: char): Reading {
    match r.mode
    case Ground => if c == '\U{1B}' then r.(mode := Escape) else r.(items := r.items + [Shown(c)])
    case Escape => if c == '[' then r.(mode := Sequence(Pending([], [], 0))) else r.(mode := Ground)
    case Sequence(p) =>
      if c == 'm' then Reading(r.items + [Rendition(p.params + [p.subs + [p.number]])], Ground)
      else r.(mode := Sequence(Digested(p, c)))
  }

  function ReadFrom(r: Reading, s: string): Reading {
    if s == "" then r else Advance(ReadFrom(r, s[..|s| - 1]), s[|s| - 1])
  }

  function Read(s: string): Reading {
    ReadFrom(Reading([], Ground), s)
  }

  lemma {:induction false} ReadConcat(r: Reading, a: string, b: string)
    ensures ReadFrom(r, a + b) == ReadFrom(ReadFrom(r, a), b)
  {
    if b == "" {
      assert a + b == a;
    } else {
      assert (a + b)[..|a + b| - 1] == a + b[..|b| - 1];
      ReadConcat(r, a, b[..|b| - 1]);
    }
  }

  lemma ReadOne(r: Reading, c: char)
    ensures ReadFrom(r, [c]) == Advance(r, c)
  {
    assert [c][..0] == "";
  }

  // ---- reading what was written ----

  lemma {:induction false} ReadNumber(r: Reading, s: string)
    requires r.mode.Sequence? && r.mode.pending.number == 0 && forall i | 0 <= i < |s| :: IsDigit(s[i])
    ensures ReadFrom(r, s) == r.(mode := Sequence(r.mode.pending.(number := Value(s))))
  {
    if s != "" {
      ReadNumber(r, s[..|s| - 1]);
    }
  }

  /** The pending sequence after some subparameters: the last one is the pending number. */
  function AfterSubs(params: seq<seq<int>>, p: seq<int>): Pending {
    if p == [] then Pending(params, [], 0) else Pending(params, p[..|p| - 1], p[|p| - 1])
  }

  lemma {:induction false} ReadParam(r: Reading, p: Param, k: nat)
    requires r.mode.Sequence? && r.mode.pending.subs == [] && r.mode.pending.number == 0 && k <= |p|
    ensures ReadFrom(r, ParamText(p[..k])) == r.(mode := Sequence(AfterSubs(r.mode.pending.params, p[..k])))
  {
    if k > 0 {
      ParamTextStep(p, k - 1);
      DigitsReadBack(p[k - 1]);
      assert p[..k][..k - 1] == p[..k - 1];
      if k == 1 {
        ReadNumber(r, Digits(p[0]));
      } else {
        ReadParam(r, p, k - 1);
        ReadSub(r, ParamText(p[..k - 1]), p[..k - 1], p[k - 1]);
      }
    }
  }

  lemma ReadSub(r: Reading, before: string, p: seq<int>, n: nat)
    requires r.mode.Sequence? && p != []
    requires ReadFrom(r, before) == r.(mode := Sequence(AfterSubs(r.mode.pending.params, p)))
    ensures ReadFrom(r, before + [':'] + Digits(n)) == r.(mode := Sequence(Pending(r.mode.pending.params, p, n)))
  {
    var separated := r.(mode := Sequence(Pending(r.mode.pending.params, p, 0)));
    ReadConcat(r, before, [':']);
    ReadOne(ReadFrom(r, before), ':');
    assert p[..|p| - 1] + [p[|p| - 1]] == p;
    ReadConcat(r, before + [':'], Digits(n));
    ReadNumber(separated, Digits(n));
    DigitsReadBack(n);
  }

  /** The pending sequence closed by a separator or the final byte. */
  function Closed(p: Pending): seq<seq<int>> {
    p.params + [p.subs + [p.number]]
  }

  /** A sequence of which `done` has been read, but for what closes the last parameter. */
  predicate Pends(r: Reading, items: seq<Item>, done: seq<seq<int>>) {
    r.items == items && r.mode.Sequence? && Closed(r.mode.pending) == done
  }

  lemma ReadWholeParam(r: Reading, p: Param)
    requires r.mode.Sequence? && r.mode.pending.subs == [] && r.mode.pending.number == 0
    ensures Pends(ReadFrom(r, ParamText(p)), r.items, r.mode.pending.params + [p])
  {
    assert p[..|p|] == p;
    ReadParam(r, p, |p|);
    assert p[..|p| - 1] + [p[|p| - 1]] == p;
  }

  lemma ReadNextParam(r: Reading, before: string, items: seq<Item>, done: seq<seq<int>>, p: Param)
    requires Pends(ReadFrom(r, before), items, done)
    ensures Pends(ReadFrom(r, before + [';'] + ParamText(p)), items, done + [p])
  {
    ReadConcat(r, before, [';']);
    ReadOne(ReadFrom(r, before), ';');
    ReadConcat(r, before + [';'], ParamText(p));
    ReadWholeParam(ReadFrom(r, before + [';']), p);
  }

  lemma {:induction false} ReadBody(r: Reading, ps: seq<Param>, k: nat)
    requires r.mode == Sequence(Pending([], [], 0)) && 0 < k <= |ps|
    ensures Pends(ReadFrom(r, Body(ps[..k])), r.items, ps[..k])
  {
    BodyStep(ps, k - 1);
    assert ps[..k] == ps[..k - 1] + [ps[k - 1]];
    if k == 1 {
      ReadWholeParam(r, ps[0]);
    } else {
      ReadBody(r, ps, k - 1);
      ReadNextParam(r, Body(ps[..k - 1]), r.items, ps[..k - 1], ps[k - 1]);
    }
  }

  /** The terminal reads the canonical text of a sequence back as its parameters. */
  lemma SequenceReadBack(items: seq<Item>, ps: seq<Param>)
    requires ps != []
    ensures ReadFrom(Reading(items, Ground), Encode(ps)) == Reading(items + [Rendition(ps)], Ground)
  {
    var r, begun := Reading(items, Ground), Reading(items, Sequence(Pending([], [], 0)));
    assert ps[..|ps|] == ps;
    ReadBody(begun, ps, |ps|);
    ReadIntroducer(items);
    ReadConcat(r, [ESC, '['], Body(ps));
    ReadConcat(r, [ESC, '['] + Body(ps), ['m']);
    ReadOne(ReadFrom(begun, Body(ps)), 'm');
    assert Encode(ps) == [ESC, '['] + Body(ps) + ['m'];
  }

  lemma ReadIntroducer(items: seq<Item>)
    ensures ReadFrom(Reading(items, Ground), [ESC, '[']) == Reading(items, Sequence(Pending([], [], 0)))
  {
    assert [ESC] + ['['] == [ESC, '['];
    ReadConcat(Reading(items, Ground), [ESC], ['[']);
    ReadOne(Reading(items, Ground), ESC);
    ReadOne(Reading(items, Escape), '[');
  }

  function ItemOf(t: Tok): Item {
    match t case Ch(c) => Shown(c) case Seq(ps) => Rendition(ps)
  }

  function Items(text: seq<Tok>): (items: seq<Item>)
    ensures |items| == |text|
  {
    seq(|text|, i requires 0 <= i < |text| => ItemOf(text[i]))
  }

  lemma TokenReadBack(items: seq<Item>, t: Tok)
    requires Clean([t])
    ensures ReadFrom(Reading(items, Ground), TokText(t)) == Reading(items + [ItemOf(t)], Ground)
  {
    assert [t][0] == t;
    match t
    case Ch(c) => ReadOne(Reading(items, Ground), c);
    case Seq(ps) => SequenceReadBack(items, ps);
  }

  lemma ItemsSnoc(text: seq<Tok>)
    requires text != []
    ensures Items(text) == Items(text[..|text| - 1]) + [ItemOf(text[|text| - 1])]
  {
  }

  /** Read from left to right, a rendered text gives its tokens and leaves nothing unfinished. */
  lemma {:induction false} TextReadBack(text: seq<Tok>)
    requires Clean(text)
    ensures Read(Render(text)) == Reading(Items(text), Ground)
  {
    if text == [] {
      assert Items(text) == [];
    } else {
      var init, last := text[..|text| - 1], text[|text| - 1];
      TextReadBack(init);
      ReadConcat(Reading([], Ground), Render(init), TokText(last));
      TokenReadBack(Items(init), last);
      ItemsSnoc(text);
    }
  }

  // ---- what the terminal shows ----

  /** A character on the screen, with the parameters in force since the last reset; a newline has no style. */
  datatype Glyph = Glyph(c: char, style: seq<seq<int>>)

  /** SGR parameters one after the other; `0` resets. */
  function Rendered(style: seq<seq<int>>, params: seq<seq<int>>): seq<seq<int>> {
    if params == [] then style
    else
      var last := params[|params| - 1];
      if last == [0] then [] else Rendered(style, params[..|params| - 1]) + [last]
  }

  datatype Display = Display(glyphs: seq<Glyph>, style: seq<seq<int>>)

  function Displayed(items: seq<Item>): Display {
    if items == [] then Display([], [])
    else
      var d := Displayed(items[..|items| - 1]);
      match items[|items| - 1]
      case Shown(c) => d.(glyphs := d.glyphs + [Glyph(c, if c == '\n' then [] else d.style)])
      case Rendition(params) => d.(style := Rendered(d.style, params))
  }

  function Glyphs(cells: seq<Cell>): (glyphs: seq<Glyph>)
    ensures |glyphs| == |cells|
  {
    seq(|cells|, i requires 0 <= i < |cells| => Glyph(cells[i].c, cells[i].style))
  }

  lemma {:induction false} RenderedIsApply(style: Style, ps: seq<Param>)
    ensures Rendered(style, ps) == Apply(style, ps)
  {
    if ps != [] {
      RenderedIsApply(style, ps[..|ps| - 1]);
    }
  }

  lemma {:induction false} DisplayedIsView(text: seq<Tok>)
    ensures Displayed(Items(text)) == Display(Glyphs(View(text)), Replay(text))
  {
    if text != [] {
      var init, last := text[..|text| - 1], text[|text| - 1];
      DisplayedIsView(init);
      assert Items(text)[..|text| - 1] == Items(init);
      match last
      case Ch(c) => assert Glyphs(View(text)) == Glyphs(View(init)) + [Glyph(c, MakeCell(c, Replay(init)).style)];
      case Seq(ps) => RenderedIsApply(Replay(init), ps);
    }
  }

  /**
    A terminal that reads the sanitized string shows exactly what the line editor left of the input, every
    character in the style it was printed in.
   */
  lemma TerminalShowsInput(es: seq<Event>)
    requires Guarded(es)
    ensures var reading := Read(Render(Run(es).text));
      reading.mode == Ground && Displayed(reading.items).glyphs == Glyphs(Edited(es).done + Edited(es).line)
  {
    ReachableClean(es);
    TextReadBack(Run(es).text);
    DisplayedIsView(Run(es).text);
    GuardedRunIsFaithful(es);
  }
}
