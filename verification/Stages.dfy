/**
  The stages a hook runs in, as the bits of one 16-bit word.
 */
module StageSets {
  import opened Wrappers
  import opened Bits

  datatype Stage =
    | Manual | CommitMsg | PostCheckout | PostCommit | PostMerge | PostRewrite
    | PreCommit | PreMergeCommit | PrePush | PreRebase | PrepareCommitMsg

  const COUNT: nat := 11

  const ORDER: seq<Stage> := [
    Manual, CommitMsg, PostCheckout, PostCommit, PostMerge, PostRewrite,
    PreCommit, PreMergeCommit, PrePush, PreRebase, PrepareCommitMsg]

  /** The discriminant. */
  function Index(stage: Stage): (i: nat)
    ensures i < COUNT && ORDER[i] == stage
  {
    match stage
    case Manual => 0
    case CommitMsg => 1
    case PostCheckout => 2
    case PostCommit => 3
    case PostMerge => 4
    case PostRewrite => 5
    case PreCommit => 6
    case PreMergeCommit => 7
    case PrePush => 8
    case PreRebase => 9
    case PrepareCommitMsg => 10
  }

  datatype Stages = Stages(bits: nat)

  const ALL_BITS: nat := Pow2(COUNT) - 1

  predicate Valid(s: Stages) {
    s.bits < Pow2(COUNT)
  }

  function StageBit(stage: Stage): nat {
    Pow2(Index(stage))
  }

  predicate Contains(s: Stages, stage: Stage) {
    And(s.bits, StageBit(stage)) != 0
  }

  function FoldBits(value: seq<Stage>): nat {
    if value == [] then 0 else Or(FoldBits(value[..|value| - 1]), StageBit(value[|value| - 1]))
  }

  function From(value: seq<Stage>): Stages {
    Stages(And(FoldBits(value), ALL_BITS))
  }

  /** Membership is the stage's bit. */
  lemma ContainsIsBit(s: Stages, stage: Stage)
    ensures Contains(s, stage) <==> Bit(s.bits, Index(stage))
  {
    var n := Index(stage);
    AndBit(s.bits, Pow2(n), n);
    OneBit(n, n);
    if And(s.bits, Pow2(n)) != 0 {
      var i := TrailingZeros(And(s.bits, Pow2(n)));
      LowestIsSet(And(s.bits, Pow2(n)));
      AndBit(s.bits, Pow2(n), i);
      OneBit(n, i);
    } else {
      ZeroBit(n);
    }
  }

  lemma {:induction false} FoldBit(value: seq<Stage>, i: nat)
    ensures Bit(FoldBits(value), i) <==> exists stage :: stage in value && Index(stage) == i
  {
    if value == [] {
      ZeroBit(i);
    } else {
      var init, last := value[..|value| - 1], value[|value| - 1];
      FoldBit(init, i);
      OrBit(FoldBits(init), StageBit(last), i);
      OneBit(Index(last), i);
      assert forall stage :: stage in value <==> stage in init || stage == last;
    }
  }

  lemma AllBit(i: nat)
    ensures Bit(ALL_BITS, i) <==> i < COUNT
  {
    if i < COUNT {
      NotBit(0, COUNT, i);
      ZeroBit(i);
    } else if Bit(ALL_BITS, i) {
      BitInWidth(ALL_BITS, COUNT, i);
    }
  }

  /** A set built from a list contains exactly the stages of the list. */
  lemma FromMembers(value: seq<Stage>, stage: Stage)
    ensures Valid(From(value)) && (Contains(From(value), stage) <==> stage in value)
  {
    MaskInWidth(FoldBits(value), COUNT);
    ContainsIsBit(From(value), stage);
    AndBit(FoldBits(value), ALL_BITS, Index(stage));
    FoldBit(value, Index(stage));
    AllBit(Index(stage));
  }

  lemma {:induction false} MaskInWidth(w: nat, width: nat)
    ensures And(w, Pow2(width) - 1) < Pow2(width)
  {
    if width == 0 {
      AndZero(w);
    } else if w > 0 {
      assert (Pow2(width) - 1) / 2 == Pow2(width - 1) - 1;
      MaskInWidth(w / 2, width - 1);
    }
  }

  lemma {:induction false} AndZero(w: nat)
    ensures And(w, 0) == 0
  {
    if w > 0 {
      AndZero(w / 2);
    }
  }

  /** Equal words and equal sets are the same thing, so `==` on stages compares sets. */
  lemma SameStages(s: Stages, t: Stages)
    requires Valid(s) && Valid(t)
    ensures s == t <==> forall stage :: Contains(s, stage) <==> Contains(t, stage)
  {
    if forall stage :: Contains(s, stage) <==> Contains(t, stage) {
      forall i: nat | i < COUNT ensures Bit(s.bits, i) <==> Bit(t.bits, i) {
        ContainsIsBit(s, ORDER[i]);
        ContainsIsBit(t, ORDER[i]);
      }
      SameBits(s.bits, t.bits, COUNT);
    }
  }

  lemma {:induction false} SameBits(a: nat, b: nat, width: nat)
    requires a < Pow2(width) && b < Pow2(width) && forall i: nat | i < width :: Bit(a, i) <==> Bit(b, i)
    ensures a == b
  {
    if width > 0 {
      assert Bit(a, 0) <==> Bit(b, 0);
      forall i: nat | i < width - 1 ensures Bit(a / 2, i) <==> Bit(b / 2, i) {
        assert Bit(a, i + 1) <==> Bit(b, i + 1);
      }
      SameBits(a / 2, b / 2, width - 1);
    }
  }

  /** `ALL` contains every stage, and a set is empty exactly when its word is zero. */
  lemma AllAndEmpty(s: Stages, stage: Stage)
    requires Valid(s)
    ensures Valid(Stages(ALL_BITS)) && Contains(Stages(ALL_BITS), stage)
    ensures s.bits == 0 <==> forall any :: !Contains(s, any)
  {
    ContainsIsBit(Stages(ALL_BITS), stage);
    AllBit(Index(stage));
    var none := Stages(0);
    SameStages(s, none);
    forall any ensures !Contains(none, any) {
      ContainsIsBit(none, any);
      ZeroBit(Index(any));
    }
  }

  // ---- iterating ----

  /** The closure behind `Stages::iter`. */
  class StagesIter {
    var bits: nat

    ghost predicate Holds()
      reads this
    {
      Valid(Stages(bits))
    }

    constructor (s: Stages)
      requires Valid(s)
      ensures Holds() && bits == s.bits
    {
      bits := s.bits;
    }

    /** The first stage left, in table order; the table look-up never fails. */
    method Next() returns (r: Option<Stage>)
      requires Holds()
      modifies this
      ensures Holds()
      ensures r == None <==> old(bits) == 0
      ensures r.Some? ==> Contains(Stages(old(bits)), r.value) && bits < old(bits)
      ensures r.Some? ==> forall stage | Contains(Stages(old(bits)), stage) :: Index(r.value) <= Index(stage)
      ensures forall stage :: Contains(Stages(bits), stage) <==> Contains(Stages(old(bits)), stage) && r != Some(stage)
    {
      if bits == 0 {
        return None;
      }
      var index := TrailingZeros(bits);
      LowestStage(bits);
      bits := And(bits, bits - 1);
      return Some(ORDER[index]);
    }
  }

  lemma LowestStage(bits: nat)
    requires 0 < bits < Pow2(COUNT)
    ensures var index := TrailingZeros(bits); var rest := And(bits, bits - 1);
      && index < COUNT && Contains(Stages(bits), ORDER[index]) && Index(ORDER[index]) == index && rest < bits
      && (forall stage | Contains(Stages(bits), stage) :: index <= Index(stage))
      && (forall stage :: Contains(Stages(rest), stage) <==> Contains(Stages(bits), stage) && stage != ORDER[index])
  {
    var index, rest := TrailingZeros(bits), And(bits, bits - 1);
    LowestIsSet(bits);
    BitInWidth(bits, COUNT, index);
    ContainsIsBit(Stages(bits), ORDER[index]);
    ClearLowest(bits, 0);
    forall stage | Contains(Stages(bits), stage) ensures index <= Index(stage) {
      ContainsIsBit(Stages(bits), stage);
      LowestIsLowest(bits, Index(stage));
    }
    forall stage ensures Contains(Stages(rest), stage) <==> Contains(Stages(bits), stage) && stage != ORDER[index] {
      ContainsIsBit(Stages(bits), stage);
      ContainsIsBit(Stages(rest), stage);
      ClearLowest(bits, Index(stage));
    }
  }

  predicate InTableOrder(stages: seq<Stage>) {
    forall i, j | 0 <= i < j < |stages| :: Index(stages[i]) < Index(stages[j])
  }

  function Members(s: Stages): set<Stage> {
    set stage: Stage | Contains(s, stage)
  }

  /** Some stages of a set are listed, and those left all come later. */
  ghost predicate ListedSoFar(all: set<Stage>, stages: seq<Stage>, left: set<Stage>) {
    && InTableOrder(stages)
    && (forall stage :: stage in all <==> stage in stages || stage in left)
    && (forall i, stage | 0 <= i < |stages| && stage in left :: Index(stages[i]) < Index(stage))
  }

  lemma ListedOneMore(all: set<Stage>, stages: seq<Stage>, left: set<Stage>, next: Stage)
    requires ListedSoFar(all, stages, left) && next in left && forall stage | stage in left :: Index(next) <= Index(stage)
    ensures ListedSoFar(all, stages + [next], left - {next})
  {
  }

  lemma AllListed(all: set<Stage>, stages: seq<Stage>)
    requires ListedSoFar(all, stages, {})
    ensures InTableOrder(stages) && (set stage | stage in stages) == all
  {
  }

  /** Running the closure to its end lists the stages once each, in table order (`Display` and `Debug` do). */
  method Listed(s: Stages) returns (stages: seq<Stage>)
    requires Valid(s)
    ensures InTableOrder(stages) && (set stage | stage in stages) == Members(s)
  {
    var iter := new StagesIter(s);
    stages := [];
    while true
      invariant iter.Holds() && fresh(iter) && ListedSoFar(Members(s), stages, Members(Stages(iter.bits)))
      decreases iter.bits
    {
      ghost var left := Members(Stages(iter.bits));
      var next := iter.Next();
      if next == None {
        assert left == {};
        AllListed(Members(s), stages);
        return;
      }
      assert Members(Stages(iter.bits)) == left - {next.value};
      ListedOneMore(Members(s), stages, left, next.value);
      stages := stages + [next.value];
    }
  }
}
