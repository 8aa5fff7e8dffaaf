/**
  SGR parameter lists and the canonical `ESC [ ... m` text that `sgr_sequence` writes for them.

  The transcript compares styles by comparing their text.  `EncodeAllInjective` shows that this is
  sound: two lists of sequences have the same text only if they are the same list.
 */
module Sgr {
  import opened Wrappers

  type u16 = n: nat | n < 0x1_0000

  /** One parameter with its colon-separated subparameters; the parser never yields one without a number. */
  type Param = p: seq<u16> | p != [] witness [0]

  const ESC: char := '\U{1B}'

  // ---- decimal numbers ----

  predicate IsDigit(c: char) {
    '0' <= c <= '9'
  }

  function Digit(d: nat): (c: char)
    requires d < 10
    ensures IsDigit(c) && c == '0' + d as char
  {
    '0' + d as char
  }

  function Digits(n: nat): (s: string)
    ensures |s| > 0 && forall i | 0 <= i < |s| :: IsDigit(s[i])
  {
    if n < 10 then [Digit(n)] else Digits(n / 10) + [Digit(n % 10)]
  }

  lemma {:induction false} DigitsInjective(m: nat, n: nat)
    requires Digits(m) == Digits(n)
    ensures m == n
  {
    var s, t := Digits(m), Digits(n);
    assert s[|s| - 1] == Digit(m % 10) && t[|t| - 1] == Digit(n % 10);
    assert |s| >= 2 <==> m >= 10;
    assert |t| >= 2 <==> n >= 10;
    if m >= 10 {
      assert s[..|s| - 1] == Digits(m / 10) && t[..|t| - 1] == Digits(n / 10);
      DigitsInjective(m / 10, n / 10);
    }
  }

  // ---- separated lists ----

  function Join(parts: seq<string>, sep: char): string {
    if parts == [] then ""
    else if |parts| == 1 then parts[0]
    else Join(parts[..|parts| - 1], sep) + [sep] + parts[|parts| - 1]
  }

  lemma JoinSnoc(parts: seq<string>, part: string, sep: char)
    ensures Join(parts + [part], sep) == if parts == [] then part else Join(parts, sep) + [sep] + part
  {
    assert (parts + [part])[..|parts|] == parts;
  }

  /** The last separator of a text determines both sides of it. */
  lemma LastSeparatorUnique(x: string, u: string, y: string, v: string, sep: char)
    requires x + [sep] + u == y + [sep] + v
    requires sep !in u && sep !in v
    ensures x == y && u == v
  {
    var s, t := x + [sep] + u, y + [sep] + v;
    assert s[|x|] == sep && t[|y|] == sep;
    assert forall k | |x| < k < |s| :: s[k] == u[k - |x| - 1];
    assert forall k | |y| < k < |t| :: t[k] == v[k - |y| - 1];
    assert s[..|x|] == x && t[..|y|] == y;
    assert s[|x| + 1..] == u && t[|y| + 1..] == v;
  }

  lemma {:induction false} JoinInjective(a: seq<string>, b: seq<string>, sep: char)
    requires a != [] && b != []
    requires forall i | 0 <= i < |a| :: sep !in a[i]
    requires forall i | 0 <= i < |b| :: sep !in b[i]
    requires Join(a, sep) == Join(b, sep)
    ensures a == b
  {
    if |a| > 1 {
      var a', b' := a[..|a| - 1], b[..|b| - 1];
      LastSeparatorUnique(Join(a', sep), a[|a| - 1], Join(b', sep), b[|b| - 1], sep);
      JoinInjective(a', b', sep);
      assert a == a' + [a[|a| - 1]] && b == b' + [b[|b| - 1]];
    }
  }

  lemma {:induction false} JoinChars(parts: seq<string>, sep: char, c: char)
    requires c != sep
    requires forall i | 0 <= i < |parts| :: c !in parts[i]
    ensures c !in Join(parts, sep)
  {
    if |parts| > 1 {
      JoinChars(parts[..|parts| - 1], sep, c);
    }
  }

  // ---- parameters, sequences, lists of sequences ----

  function Numbers(p: seq<u16>): (parts: seq<string>)
    ensures |parts| == |p|
  {
    seq(|p|, i requires 0 <= i < |p| => Digits(p[i]))
  }

  function ParamText(p: seq<u16>): string {
    Join(Numbers(p), ':')
  }

  function ParamTexts(ps: seq<Param>): (parts: seq<string>)
    ensures |parts| == |ps|
  {
    seq(|ps|, i requires 0 <= i < |ps| => ParamText(ps[i]))
  }

  function Body(ps: seq<Param>): string {
    Join(ParamTexts(ps), ';')
  }

  /** What follows the escape byte. */
  function Tail(ps: seq<Param>): string {
    ['['] + Body(ps) + ['m']
  }

  function Encode(ps: seq<Param>): string {
    [ESC] + Tail(ps)
  }

  function EncodeAll(seqs: seq<seq<Param>>): string {
    if seqs == [] then "" else EncodeAll(seqs[..|seqs| - 1]) + Encode(seqs[|seqs| - 1])
  }

  lemma ParamTextChars(p: Param)
    ensures forall c | c in ParamText(p) :: IsDigit(c) || c == ':'
  {
    forall c | c in ParamText(p) && !IsDigit(c) && c != ':'
      ensures false
    {
      JoinChars(Numbers(p), ':', c);
    }
  }

  lemma {:induction false} ParamTextInjective(p: Param, q: Param)
    requires ParamText(p) == ParamText(q)
    ensures p == q
  {
    JoinInjective(Numbers(p), Numbers(q), ':');
    forall i | 0 <= i < |p|
      ensures p[i] == q[i]
    {
      assert Numbers(p)[i] == Numbers(q)[i];
      DigitsInjective(p[i], q[i]);
    }
  }

  lemma {:induction false} BodyInjective(ps: seq<Param>, qs: seq<Param>)
    requires ps != [] && qs != []
    requires Body(ps) == Body(qs)
    ensures ps == qs
  {
    forall i | 0 <= i < |ps| ensures ';' !in ParamTexts(ps)[i] { ParamTextChars(ps[i]); }
    forall i | 0 <= i < |qs| ensures ';' !in ParamTexts(qs)[i] { ParamTextChars(qs[i]); }
    JoinInjective(ParamTexts(ps), ParamTexts(qs), ';');
    forall i | 0 <= i < |ps|
      ensures ps[i] == qs[i]
    {
      assert ParamTexts(ps)[i] == ParamTexts(qs)[i];
      ParamTextInjective(ps[i], qs[i]);
    }
  }

  lemma TailChars(ps: seq<Param>)
    ensures ESC !in Tail(ps) && '\n' !in Tail(ps)
  {
    forall i | 0 <= i < |ps| ensures ESC !in ParamTexts(ps)[i] && '\n' !in ParamTexts(ps)[i] { ParamTextChars(ps[i]); }
    JoinChars(ParamTexts(ps), ';', ESC);
    JoinChars(ParamTexts(ps), ';', '\n');
  }

  lemma TailInjective(ps: seq<Param>, qs: seq<Param>)
    requires ps != [] && qs != []
    requires Tail(ps) == Tail(qs)
    ensures ps == qs
  {
    var u, v := Tail(ps), Tail(qs);
    assert u[1..|u| - 1] == Body(ps) && v[1..|v| - 1] == Body(qs);
    BodyInjective(ps, qs);
  }

  lemma LastEncodedUnique(u: string, x: seq<Param>, v: string, y: seq<Param>)
    requires x != [] && y != [] && u + Encode(x) == v + Encode(y)
    ensures u == v && x == y
  {
    TailChars(x);
    TailChars(y);
    assert u + Encode(x) == u + [ESC] + Tail(x);
    assert v + Encode(y) == v + [ESC] + Tail(y);
    LastSeparatorUnique(u, Tail(x), v, Tail(y), ESC);
    TailInjective(x, y);
  }

  /** Styles are equal as text exactly when they are the same list of sequences. */
  lemma {:induction false} EncodeAllInjective(a: seq<seq<Param>>, b: seq<seq<Param>>)
    requires forall i | 0 <= i < |a| :: a[i] != []
    requires forall i | 0 <= i < |b| :: b[i] != []
    ensures EncodeAll(a) == EncodeAll(b) <==> a == b
  {
    if EncodeAll(a) == EncodeAll(b) && a != [] && b != [] {
      var a', x := a[..|a| - 1], a[|a| - 1];
      var b', y := b[..|b| - 1], b[|b| - 1];
      LastEncodedUnique(EncodeAll(a'), x, EncodeAll(b'), y);
      EncodeAllInjective(a', b');
      assert a == a' + [x] && b == b' + [y];
    }
  }

  lemma ParamTextStep(p: Param, k: nat)
    requires k < |p|
    ensures ParamText(p[..k + 1]) == if k == 0 then Digits(p[k]) else ParamText(p[..k]) + [':'] + Digits(p[k])
  {
    assert Numbers(p[..k + 1]) == Numbers(p[..k]) + [Digits(p[k])];
    JoinSnoc(Numbers(p[..k]), Digits(p[k]), ':');
  }

  lemma BodyStep(ps: seq<Param>, k: nat)
    requires k < |ps|
    ensures Body(ps[..k + 1]) == if k == 0 then ParamText(ps[k]) else Body(ps[..k]) + [';'] + ParamText(ps[k])
  {
    assert ParamTexts(ps[..k + 1]) == ParamTexts(ps[..k]) + [ParamText(ps[k])];
    JoinSnoc(ParamTexts(ps[..k]), ParamText(ps[k]), ';');
  }

  /** The inner loop of `sgr_sequence`: appends one parameter. */
  method AppendParam(sequence: string, param: Param) returns (r: string)
    ensures r == sequence + ParamText(param)
  {
    r := sequence;
    for sub := 0 to |param|
      invariant r == sequence + ParamText(param[..sub])
    {
      ParamTextStep(param, sub);
      if sub != 0 {
        r := r + [':'];
      }
      r := r + Digits(param[sub]);
    }
    assert param[..|param|] == param;
  }

  /** `sgr_sequence`: nothing for an empty list, otherwise the canonical text. */
  method SgrSequence(ps: seq<Param>) returns (r: Option<string>)
    ensures r == if ps == [] then None else Some(Encode(ps))
  {
    var sequence := [ESC, '['];
    var hasParams := false;
    for index := 0 to |ps|
      invariant sequence == [ESC, '['] + Body(ps[..index])
      invariant hasParams == (index > 0)
    {
      BodyStep(ps, index);
      if index != 0 {
        sequence := sequence + [';'];
      }
      hasParams := true;
      sequence := AppendParam(sequence, ps[index]);
    }
    assert ps[..|ps|] == ps;
    if !hasParams {
      return None;
    }
    sequence := sequence + ['m'];
    assert sequence == Encode(ps);
    return Some(sequence);
  }
}
