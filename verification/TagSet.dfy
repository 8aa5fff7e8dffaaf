/**
  Sets of file tags as a fixed array of 64-bit words, and the iterator over one.
 */
module TagSets {
  import opened Wrappers
  import opened Bits

  const WIDTH: nat := 64

  predicate Words(words: seq<nat>) {
    forall k | 0 <= k < |words| :: words[k] < Pow2(WIDTH)
  }

  predicate Has(words: seq<nat>, id: nat) {
    id / WIDTH < |words| && Bit(words[id / WIDTH], id % WIDTH)
  }

  /** The set a word sequence stands for. */
  function Members(words: seq<nat>): set<nat> {
    set id | 0 <= id < WIDTH * |words| && Has(words, id)
  }

  predicate Within(words: seq<nat>, tags: nat) {
    forall id | 0 <= id < WIDTH * |words| && Has(words, id) :: id < tags
  }

  /** `bits[id / 64] |= 1 << (id % 64)`. */
  function WithBit(words: seq<nat>, id: nat): seq<nat>
    requires id / WIDTH < |words|
  {
    words[id / WIDTH := Or(words[id / WIDTH], Pow2(id % WIDTH))]
  }

  lemma InsertMembers(words: seq<nat>, id: nat)
    requires Words(words) && id / WIDTH < |words|
    ensures Words(WithBit(words, id)) && Members(WithBit(words, id)) == Members(words) + {id}
  {
    var after := WithBit(words, id);
    PowerGrows(id % WIDTH, WIDTH);
    OrInWidth(words[id / WIDTH], Pow2(id % WIDTH), WIDTH);
    forall j | 0 <= j < WIDTH * |words| ensures Has(after, j) <==> Has(words, j) || j == id {
      OrBit(words[id / WIDTH], Pow2(id % WIDTH), j % WIDTH);
      OneBit(id % WIDTH, j % WIDTH);
    }
  }

  /** The words stand for exactly this set of known tags. */
  predicate Represents(words: seq<nat>, tags: nat, ids: set<nat>) {
    Words(words) && Within(words, tags) && Members(words) == ids
  }

  lemma InsertRepresents(words: seq<nat>, tags: nat, ids: set<nat>, id: nat)
    requires Represents(words, tags, ids) && id < tags && id / WIDTH < |words|
    ensures Represents(WithBit(words, id), tags, ids + {id})
  {
    InsertMembers(words, id);
    var after := WithBit(words, id);
    assert forall j | 0 <= j < WIDTH * |after| && Has(after, j) :: j in Members(after);
  }

  lemma EmptyRepresents(words: seq<nat>, tags: nat)
    requires forall k | 0 <= k < |words| :: words[k] == 0
    ensures Represents(words, tags, {})
  {
    EmptyIff(words);
    assert forall j | 0 <= j < WIDTH * |words| && Has(words, j) :: j in Members(words);
  }

  lemma UnionMembers(a: seq<nat>, b: seq<nat>, r: seq<nat>)
    requires Words(a) && Words(b) && |a| == |b| == |r| && forall k | 0 <= k < |a| :: r[k] == Or(a[k], b[k])
    ensures Words(r) && Members(r) == Members(a) + Members(b)
  {
    forall k | 0 <= k < |a| ensures r[k] < Pow2(WIDTH) {
      OrInWidth(a[k], b[k], WIDTH);
    }
    forall j | 0 <= j < WIDTH * |a| ensures Has(r, j) <==> Has(a, j) || Has(b, j) {
      OrBit(a[j / WIDTH], b[j / WIDTH], j % WIDTH);
    }
  }

  /** The ids of one word. */
  lemma WordOf(words: seq<nat>, k: nat, i: nat)
    requires k < |words| && i < WIDTH
    ensures Has(words, WIDTH * k + i) <==> Bit(words[k], i)
    ensures (WIDTH * k + i) / WIDTH == k && WIDTH * k + i < WIDTH * |words|
  {
  }

  lemma CommonBit(x: nat, y: nat)
    requires x < Pow2(WIDTH) && And(x, y) != 0
    ensures exists i :: 0 <= i < WIDTH && Bit(x, i) && Bit(y, i)
  {
    var i := TrailingZeros(And(x, y));
    LowestIsSet(And(x, y));
    AndBit(x, y, i);
    BitInWidth(x, WIDTH, i);
  }

  lemma StrayBit(x: nat, y: nat)
    requires x < Pow2(WIDTH) && y < Pow2(WIDTH) && And(x, Not(y, WIDTH)) != 0
    ensures exists i :: 0 <= i < WIDTH && Bit(x, i) && !Bit(y, i)
  {
    CommonBit(x, Not(y, WIDTH));
    var i :| 0 <= i < WIDTH && Bit(x, i) && Bit(Not(y, WIDTH), i);
    NotBit(y, WIDTH, i);
  }

  lemma NoStrayBit(x: nat, y: nat, i: nat)
    requires y < Pow2(WIDTH) && And(x, Not(y, WIDTH)) == 0 && i < WIDTH
    ensures Bit(x, i) ==> Bit(y, i)
  {
    AndBit(x, Not(y, WIDTH), i);
    NotBit(y, WIDTH, i);
    ZeroBit(i);
  }

  lemma DisjointIff(a: seq<nat>, b: seq<nat>)
    requires Words(a) && Words(b) && |a| == |b|
    ensures Members(a) !! Members(b) <==> forall k | 0 <= k < |a| :: And(a[k], b[k]) == 0
  {
    forall j | 0 <= j < WIDTH * |a| && And(a[j / WIDTH], b[j / WIDTH]) == 0
      ensures !(Has(a, j) && Has(b, j))
    {
      AndBit(a[j / WIDTH], b[j / WIDTH], j % WIDTH);
      ZeroBit(j % WIDTH);
    }
    forall k | 0 <= k < |a| && And(a[k], b[k]) != 0 ensures exists j :: j in Members(a) && j in Members(b) {
      SharedMember(a, b, k);
    }
  }

  lemma SharedMember(a: seq<nat>, b: seq<nat>, k: nat)
    requires Words(a) && |a| == |b| && k < |a| && And(a[k], b[k]) != 0
    ensures exists j :: j in Members(a) && j in Members(b)
  {
    CommonBit(a[k], b[k]);
    var i: nat :| i < WIDTH && Bit(a[k], i) && Bit(b[k], i);
    WordOf(a, k, i);
    WordOf(b, k, i);
    assert WIDTH * k + i in Members(a) && WIDTH * k + i in Members(b);
  }

  lemma SubsetIff(a: seq<nat>, b: seq<nat>)
    requires Words(a) && Words(b) && |a| == |b|
    ensures Members(a) <= Members(b) <==> forall k | 0 <= k < |a| :: And(a[k], Not(b[k], WIDTH)) == 0
  {
    forall j | 0 <= j < WIDTH * |a| && And(a[j / WIDTH], Not(b[j / WIDTH], WIDTH)) == 0
      ensures Has(a, j) ==> Has(b, j)
    {
      NoStrayBit(a[j / WIDTH], b[j / WIDTH], j % WIDTH);
    }
    forall k | 0 <= k < |a| && And(a[k], Not(b[k], WIDTH)) != 0 ensures exists j :: j in Members(a) && j !in Members(b) {
      StrayMember(a, b, k);
    }
  }

  lemma StrayMember(a: seq<nat>, b: seq<nat>, k: nat)
    requires Words(a) && Words(b) && |a| == |b| && k < |a| && And(a[k], Not(b[k], WIDTH)) != 0
    ensures exists j :: j in Members(a) && j !in Members(b)
  {
    StrayBit(a[k], b[k]);
    var i: nat :| i < WIDTH && Bit(a[k], i) && !Bit(b[k], i);
    WordOf(a, k, i);
    WordOf(b, k, i);
    assert WIDTH * k + i in Members(a) && WIDTH * k + i !in Members(b);
  }

  lemma EmptyIff(a: seq<nat>)
    requires Words(a)
    ensures Members(a) == {} <==> forall k | 0 <= k < |a| :: a[k] == 0
  {
    forall k | 0 <= k < |a| && a[k] != 0 ensures exists j :: j in Members(a) {
      SomeBit(a[k], WIDTH);
      var i :| 0 <= i < WIDTH && Bit(a[k], i);
      WordOf(a, k, i);
      assert WIDTH * k + i in Members(a);
    }
    forall j | 0 <= j < WIDTH * |a| && a[j / WIDTH] == 0 ensures !Has(a, j) {
      ZeroBit(j % WIDTH);
    }
  }

  class TagSet {
    const tags: nat
    const bits: array<nat>

    ghost predicate Valid()
      reads this, bits
    {
      bits.Length == (tags + 63) / 64 && Words(bits[..]) && Within(bits[..], tags)
    }

    ghost function Contents(): set<nat>
      reads this, bits
    {
      Members(bits[..])
    }

    /** `TagSet::new`; duplicates are merged, and an id out of range is the caller's fault. */
    constructor (tags: nat, tagIds: seq<nat>)
      requires forall k | 0 <= k < |tagIds| :: tagIds[k] < tags
      ensures Valid() && fresh(bits) && this.tags == tags
      ensures Contents() == set id | id in tagIds
    {
      this.tags := tags;
      bits := new nat[(tags + 63) / 64](_ => 0);
      new;
      ghost var ids: set<nat> := {};
      EmptyRepresents(bits[..], tags);
      for i := 0 to |tagIds|
        invariant bits.Length == (tags + 63) / 64 && fresh(bits)
        invariant Represents(bits[..], tags, ids)
        invariant forall id :: id in ids <==> id in tagIds[..i]
      {
        var id := tagIds[i];
        InsertRepresents(bits[..], tags, ids, id);
        ghost var after := WithBit(bits[..], id);
        bits[id / 64] := Or(bits[id / 64], Pow2(id % 64));
        ids := ids + {id};
        assert bits[..] == after;
        assert tagIds[..i + 1] == tagIds[..i] + [id];
      }
      assert tagIds[..|tagIds|] == tagIds;
    }

    method Insert(id: nat)
      requires Valid() && id < tags
      modifies bits
      ensures Valid() && Contents() == old(Contents()) + {id}
    {
      InsertRepresents(bits[..], tags, Contents(), id);
      ghost var after := WithBit(bits[..], id);
      bits[id / 64] := Or(bits[id / 64], Pow2(id % 64));
      assert bits[..] == after;
    }

    method IsDisjoint(other: TagSet) returns (r: bool)
      requires Valid() && other.Valid() && other.tags == tags
      ensures r <==> Contents() !! other.Contents()
    {
      DisjointIff(bits[..], other.bits[..]);
      for k := 0 to bits.Length
        invariant forall j | 0 <= j < k :: And(bits[j], other.bits[j]) == 0
      {
        if And(bits[k], other.bits[k]) != 0 {
          assert And(bits[..][k], other.bits[..][k]) != 0;
          return false;
        }
      }
      assert forall j | 0 <= j < bits.Length :: And(bits[..][j], other.bits[..][j]) == 0;
      return true;
    }

    method IsSubset(other: TagSet) returns (r: bool)
      requires Valid() && other.Valid() && other.tags == tags
      ensures r <==> Contents() <= other.Contents()
    {
      SubsetIff(bits[..], other.bits[..]);
      for k := 0 to bits.Length
        invariant forall j | 0 <= j < k :: And(bits[..][j], Not(other.bits[..][j], WIDTH)) == 0
      {
        assert other.bits[k] == other.bits[..][k] && bits[k] == bits[..][k];
        if And(bits[k], Not(other.bits[k], WIDTH)) != 0 {
          return false;
        }
      }
      return true;
    }

    /** `|=`. */
    method UnionWith(other: TagSet)
      requires Valid() && other.Valid() && other.tags == tags && other.bits != bits
      modifies bits
      ensures Valid() && Contents() == old(Contents()) + other.Contents()
    {
      ghost var a, b := bits[..], other.bits[..];
      for k := 0 to bits.Length
        invariant forall j | 0 <= j < k :: bits[j] == Or(a[j], b[j])
        invariant forall j | k <= j < bits.Length :: bits[j] == a[j]
        invariant other.bits[..] == b
      {
        bits[k] := Or(bits[k], other.bits[k]);
      }
      UnionMembers(a, b, bits[..]);
      assert forall j | 0 <= j < WIDTH * |bits[..]| && Has(bits[..], j) :: j in Members(bits[..]);
      assert forall j | j in Members(a) :: j < tags;
      assert forall j | j in Members(b) :: j < tags;
    }

    method IsEmpty() returns (r: bool)
      requires Valid()
      ensures r <==> Contents() == {}
    {
      EmptyIff(bits[..]);
      for k := 0 to bits.Length
        invariant forall j | 0 <= j < k :: bits[..][j] == 0
      {
        if bits[k] != 0 {
          assert bits[..][k] != 0;
          return false;
        }
      }
      return true;
    }
  }

  // ---- iterating ----

  /** What an iterator has left: the rest of the current word, and the words not loaded yet. */
  function Pending(words: seq<nat>, wordIdx: nat, cur: nat): set<nat> {
    set id | 0 <= id < WIDTH * |words|
      && ((id / WIDTH + 1 == wordIdx && Bit(cur, id % WIDTH)) || (id / WIDTH >= wordIdx && Has(words, id)))
  }

  /** An iterator in the middle of a set of known tags, with this much left. */
  predicate Position(words: seq<nat>, tags: nat, wordIdx: nat, cur: nat, left: set<nat>) {
    && Words(words) && wordIdx <= |words| && cur < Pow2(WIDTH) && (wordIdx == 0 ==> cur == 0)
    && left == Pending(words, wordIdx, cur) && forall id | id in left :: id < tags
  }

  lemma LoadNext(words: seq<nat>, tags: nat, wordIdx: nat, left: set<nat>)
    requires wordIdx < |words| && Position(words, tags, wordIdx, 0, left)
    ensures Position(words, tags, wordIdx + 1, words[wordIdx], left)
  {
    forall id | 0 <= id < WIDTH * |words| && id / WIDTH + 1 == wordIdx ensures !Bit(0, id % WIDTH) {
      ZeroBit(id % WIDTH);
    }
  }

  lemma NothingLeft(words: seq<nat>, tags: nat, wordIdx: nat, left: set<nat>)
    requires wordIdx >= |words| && Position(words, tags, wordIdx, 0, left)
    ensures left == {}
  {
    forall id | 0 <= id < WIDTH * |words| ensures !Bit(0, id % WIDTH) {
      ZeroBit(id % WIDTH);
    }
  }

  lemma LeastLeft(words: seq<nat>, tags: nat, wordIdx: nat, cur: nat, left: set<nat>)
    requires cur != 0 && Position(words, tags, wordIdx, cur, left)
    ensures var id := WIDTH * (wordIdx - 1) + TrailingZeros(cur);
      && id / WIDTH == wordIdx - 1 && id % WIDTH == TrailingZeros(cur)
      && id in left && (forall other | other in left :: id <= other)
  {
    var tz := TrailingZeros(cur);
    LowestIsSet(cur);
    BitInWidth(cur, WIDTH, tz);
    var id := WIDTH * (wordIdx - 1) + tz;
    assert id / WIDTH == wordIdx - 1 && id % WIDTH == tz;
    forall other | other in left ensures id <= other {
      if other / WIDTH + 1 == wordIdx {
        LowestIsLowest(cur, other % WIDTH);
      }
    }
  }

  lemma WithoutLowest(words: seq<nat>, wordIdx: nat, cur: nat, id: nat)
    requires cur != 0 && id / WIDTH + 1 == wordIdx && id % WIDTH == TrailingZeros(cur)
    ensures Pending(words, wordIdx, And(cur, cur - 1)) == Pending(words, wordIdx, cur) - {id}
  {
    var after, before := Pending(words, wordIdx, And(cur, cur - 1)), Pending(words, wordIdx, cur);
    forall other: nat
      ensures other in after <==> other in before && other != id
    {
      ClearLowest(cur, other % WIDTH);
      assert other == WIDTH * (other / WIDTH) + other % WIDTH && id == WIDTH * (id / WIDTH) + id % WIDTH;
    }
  }

  /** Taking the lowest bit of the current word takes the least id left. */
  lemma TakeLowest(words: seq<nat>, tags: nat, wordIdx: nat, cur: nat, left: set<nat>)
    requires cur != 0 && Position(words, tags, wordIdx, cur, left)
    ensures var id := WIDTH * (wordIdx - 1) + TrailingZeros(cur);
      && id in left && (forall other | other in left :: id <= other)
      && Position(words, tags, wordIdx, And(cur, cur - 1), left - {id})
  {
    LeastLeft(words, tags, wordIdx, cur, left);
    WithoutLowest(words, wordIdx, cur, WIDTH * (wordIdx - 1) + TrailingZeros(cur));
    ClearLowest(cur, 0);
  }

  /** `ALL_TAGS.get(idx)`. */
  function TableGet(tags: nat, idx: nat): Option<nat> {
    if idx < tags then Some(idx) else None
  }

  class TagSetIter {
    const tags: nat
    const bits: array<nat>
    var wordIdx: nat
    var curWord: nat

    ghost predicate Valid()
      reads this, bits
    {
      Position(bits[..], tags, wordIdx, curWord, Left())
    }

    ghost function Left(): set<nat>
      reads this, bits
    {
      Pending(bits[..], wordIdx, curWord)
    }

    /** `TagSet::iter`. */
    constructor (source: TagSet)
      requires source.Valid()
      ensures Valid() && bits == source.bits && Left() == source.Contents()
    {
      tags, bits := source.tags, source.bits;
      wordIdx, curWord := 0, 0;
    }

    /** The part of `next` that takes the lowest bit of the current word. */
    method TakeBit() returns (r: Option<nat>)
      requires Valid() && curWord != 0
      modifies this`curWord
      ensures Valid() && r.Some? && r.value in old(Left()) && (forall id | id in old(Left()) :: r.value <= id)
      ensures Left() == old(Left()) - {r.value}
    {
      ghost var words, left := bits[..], Left();
      TakeLowest(words, tags, wordIdx, curWord, left);
      var tz := TrailingZeros(curWord);
      curWord := And(curWord, curWord - 1);
      assert bits[..] == words;
      var idx := (if wordIdx > 0 then wordIdx - 1 else 0) * 64 + tz;
      return TableGet(tags, idx);
    }

    /** The least id left, if any; an index past the table would end the iteration. */
    method Next() returns (r: Option<nat>)
      requires Valid()
      modifies this`wordIdx, this`curWord
      ensures Valid()
      ensures r == None <==> old(Left()) == {}
      ensures r.Some? ==> r.value in old(Left()) && (forall id | id in old(Left()) :: r.value <= id)
      ensures Left() == old(Left()) - (if r.Some? then {r.value} else {})
    {
      ghost var words, left := bits[..], Left();
      while true
        invariant Position(words, tags, wordIdx, curWord, left)
        decreases bits.Length - wordIdx
      {
        if curWord != 0 {
          r := TakeBit();
          return;
        }
        if wordIdx >= bits.Length {
          NothingLeft(words, tags, wordIdx, left);
          return None;
        }
        LoadNext(words, tags, wordIdx, left);
        curWord := bits[wordIdx];
        wordIdx := wordIdx + 1;
      }
    }
  }

  predicate Increasing(s: seq<nat>) {
    forall i, j | 0 <= i < j < |s| :: s[i] < s[j]
  }

  /** Running an iterator to its end lists the members once each, in increasing order. */
  method Listed(tagSet: TagSet) returns (ids: seq<nat>)
    requires tagSet.Valid()
    ensures Increasing(ids) && (set id | id in ids) == tagSet.Contents()
  {
    var iter := new TagSetIter(tagSet);
    ids := [];
    while true
      invariant iter.Valid() && fresh(iter) && iter.bits == tagSet.bits
      invariant (set id | id in ids) + iter.Left() == tagSet.Contents() && Increasing(ids)
      invariant forall i, id | 0 <= i < |ids| && id in iter.Left() :: ids[i] < id
      decreases iter.Left()
    {
      var next := iter.Next();
      if next == None {
        return;
      }
      ids := ids + [next.value];
    }
  }
}
