/**
 Which packet numbers an endpoint has accepted: a 256-bit map behind the highest
 one, proved to answer as an unbounded set would.
 */
module ReplayWindows {
  import opened Bits
  import opened Prelude

  const WIDTH: nat := 256
  const WORDS: nat := 4

  datatype Admission = Fresh | Replay | TooOld

  /** The set the window stands for, and the highest number ever offered to it as new. */
  datatype Seen = Seen(top: nat, admitted: set<nat>) {
    /** Zero is a real number: only membership says whether it arrived. */
    ghost predicate Valid() {
      && (forall n :: n in admitted ==> n <= top)
      && (top > 0 ==> top in admitted)
    }

    /** The answer of a set that remembers everything but refuses what is `WIDTH` or more behind. */
    function Answer(number: nat): Admission {
      if number + WIDTH <= top then TooOld
      else if number in admitted then Replay
      else Fresh
    }

    function After(number: nat): Seen {
      if Answer(number) == Fresh
      then Seen(if number > top then number else top, admitted + {number})
      else this
    }
  }

  const Unseen: Seen := Seen(0, {})

  /** Bit `b` of the map that spans the words. */
  predicate At(words: seq<Word>, b: nat)
    requires |words| == WORDS && b < WIDTH
  {
    words[b / 64][b % 64]
  }

  ghost predicate Represents(words: seq<Word>, seen: Seen)
    requires |words| == WORDS
  {
    forall b :: 0 <= b < WIDTH ==> (At(words, b) <==> b <= seen.top && seen.top - b in seen.admitted)
  }

  /** Every bit of `before` stands `ahead` places further back in `after`. */
  ghost predicate Moved(before: seq<Word>, after: seq<Word>, ahead: nat)
    requires |before| == |after| == WORDS
  {
    forall b :: 0 <= b < WIDTH ==> (At(after, b) <==> b >= ahead && At(before, b - ahead))
  }

  /** `after` is `before` moved by whole words. */
  ghost predicate WordShift(before: seq<Word>, after: seq<Word>, words: nat)
    requires |before| == |after| == WORDS
  {
    forall k :: 0 <= k < WORDS ==> after[k] == if k >= words then before[k - words] else Zero()
  }

  /** `after` is `before` moved within words, each taking its carry from the one below. */
  ghost predicate BitShift(before: seq<Word>, after: seq<Word>, bits: nat)
    requires |before| == |after| == WORDS && 0 < bits < 64
  {
    forall k :: 0 <= k < WORDS ==> after[k] == Or(Shl(before[k], bits), Carry(before, bits, k))
  }

  function Carry(before: seq<Word>, bits: nat, k: nat): Word
    requires |before| == WORDS && 0 < bits < 64 && k <= WORDS
  {
    if k == 0 then Zero() else Shr(before[k - 1], 64 - bits)
  }

  lemma WordShiftMoves(before: seq<Word>, after: seq<Word>, words: nat)
    requires |before| == |after| == WORDS && WordShift(before, after, words)
    ensures Moved(before, after, 64 * words)
  {
    forall b | 0 <= b < WIDTH
      ensures At(after, b) <==> b >= 64 * words && At(before, b - 64 * words)
    {
      assert after[b / 64] == if b / 64 >= words then before[b / 64 - words] else Zero();
    }
  }

  /** A bit of the map is a bit of one word. */
  lemma AtWord(words: seq<Word>, b: nat, k: nat, i: nat)
    requires |words| == WORDS && b == 64 * k + i && i < 64 && k < WORDS
    ensures At(words, b) == words[k][i]
  {
    assert b / 64 == k && b % 64 == i;
  }

  /** A bit that stays within its word, one carried into the next, and the zeros that follow. */
  lemma BitShiftAt(before: seq<Word>, word: Word, bits: nat, k: nat, i: nat)
    requires |before| == WORDS && 0 < bits < 64 && k < WORDS && i < 64
    requires word == Or(Shl(before[k], bits), Carry(before, bits, k))
    ensures word[i] <==> if i >= bits then before[k][i - bits] else k > 0 && before[k - 1][i + 64 - bits]
  {
  }

  lemma BitShiftMovesOne(before: seq<Word>, after: seq<Word>, bits: nat, b: nat, k: nat, i: nat)
    requires |before| == |after| == WORDS && 0 < bits < 64 && b == 64 * k + i && i < 64 && k < WORDS
    requires after[k] == Or(Shl(before[k], bits), Carry(before, bits, k))
    ensures At(after, b) <==> b >= bits && At(before, b - bits)
  {
    AtWord(after, b, k, i);
    BitShiftAt(before, after[k], bits, k, i);
    if i >= bits {
      AtWord(before, b - bits, k, i - bits);
    } else if k > 0 {
      AtWord(before, b - bits, k - 1, i + 64 - bits);
    }
  }

  lemma BitShiftMoves(before: seq<Word>, after: seq<Word>, bits: nat)
    requires |before| == |after| == WORDS && 0 < bits < 64 && BitShift(before, after, bits)
    ensures Moved(before, after, bits)
  {
    forall b | 0 <= b < WIDTH
      ensures At(after, b) <==> b >= bits && At(before, b - bits)
    {
      BitShiftMovesOne(before, after, bits, b, b / 64, b % 64);
    }
  }

  /** Two moves in a row are one move by the sum. */
  lemma MovedTwice(before: seq<Word>, between: seq<Word>, after: seq<Word>, first: nat, second: nat, both: nat)
    requires |before| == |between| == |after| == WORDS && both == first + second
    requires Moved(before, between, first) && Moved(between, after, second)
    ensures Moved(before, after, both)
  {
    forall b | 0 <= b < WIDTH
      ensures At(after, b) <==> b >= both && At(before, b - both)
    {
      if b >= second {
        assert At(after, b) == At(between, b - second);
      }
    }
  }

  lemma MovedNone(words: seq<Word>)
    requires |words| == WORDS
    ensures Moved(words, words, 0)
  {
    forall b | 0 <= b < WIDTH
      ensures At(words, b) <==> b >= 0 && At(words, b - 0)
    {
    }
  }

  /** Either stage of a slide may be skipped. */
  lemma MovedInStages(before: seq<Word>, between: seq<Word>, after: seq<Word>, words: nat, bits: nat, ahead: nat)
    requires |before| == |between| == |after| == WORDS && ahead == 64 * words + bits
    requires if words > 0 then Moved(before, between, 64 * words) else between == before
    requires if bits > 0 then Moved(between, after, bits) else after == between
    ensures Moved(before, after, ahead)
  {
    if words == 0 {
      MovedNone(before);
    }
    if bits > 0 {
      MovedTwice(before, between, after, 64 * words, bits, ahead);
    }
  }

  /** The word maps the 64 numbers behind the top to whether each was admitted. */
  ghost predicate MapNames(behind: Word, seen: Seen) {
    forall i :: 0 <= i < 64 ==> (behind[i] <==> i + 1 <= seen.top && seen.top - i - 1 in seen.admitted)
  }

  class ReplayWindow {
    var top: nat
    const seen: array<Word>
    ghost var admitted: set<nat>

    ghost function View(): Seen
      reads this
    {
      Seen(top, admitted)
    }

    ghost predicate Valid()
      reads this, seen
    {
      seen.Length == WORDS && View().Valid() && Represents(seen[..], View())
    }

    constructor ()
      ensures Valid() && fresh(seen) && View() == Unseen
    {
      top := 0;
      seen := new Word[WORDS](i => Zero());
      admitted := {};
    }

    /** The four-word map answers exactly as the unbounded set does, and follows it. */
    method Admit(number: nat) returns (answer: Admission)
      requires Valid()
      modifies this, seen
      ensures Valid()
      ensures answer == old(View()).Answer(number)
      ensures View() == old(View()).After(number)
    {
      if number > top {
        Slide(number - top);
        top := number;
        Set(0);
        admitted := admitted + {number};
        return Fresh;
      }
      var behind := top - number;
      if behind >= WIDTH {
        return TooOld;
      }
      var already := Get(behind);
      if already {
        return Replay;
      }
      Set(behind);
      admitted := admitted + {number};
      return Fresh;
    }

    /** The largest number and, in bit `i`, whether the one `i + 1` behind it was admitted. */
    method Acknowledgement() returns (ack: Option<(nat, Word)>)
      requires Valid()
      ensures ack.None? <==> admitted == {}
      ensures ack.Some? ==> ack.value.0 == top && top in admitted && MapNames(ack.value.1, View())
    {
      var any := Get(0);
      assert At(seen[..], 0) <==> top in admitted;
      if !any {
        return None;
      }
      var behind := Or(Shr(seen[0], 1), Shl(seen[1], 63));
      forall i | 0 <= i < 64
        ensures behind[i] <==> i + 1 <= top && top - i - 1 in admitted
      {
        assert behind[i] == At(seen[..], i + 1);
      }
      ack := Some((top, behind));
    }

    method Get(behind: nat) returns (set_: bool)
      requires seen.Length == WORDS && behind < WIDTH
      ensures set_ <==> At(seen[..], behind)
    {
      var word, bit := behind / 64, behind % 64;
      MaskReads(seen[word], bit);
      set_ := Meets(seen[word], Mask(bit));
    }

    method Set(behind: nat)
      requires seen.Length == WORDS && behind < WIDTH
      modifies seen
      ensures forall b :: 0 <= b < WIDTH ==> (At(seen[..], b) <==> b == behind || At(old(seen[..]), b))
    {
      var word, bit := behind / 64, behind % 64;
      seen[word] := Or(seen[word], Mask(bit));
    }

    /** Every bit moves `ahead` places back, whether or not that crosses words. */
    method Slide(ahead: nat)
      requires seen.Length == WORDS
      modifies seen
      ensures Moved(old(seen[..]), seen[..], ahead)
    {
      if ahead >= WIDTH {
        Clear();
      } else {
        SlideWithin(ahead / 64, ahead % 64, ahead);
      }
    }

    /** Whole words first, then the bits that are left. */
    method SlideWithin(words: nat, bits: nat, ghost ahead: nat)
      requires seen.Length == WORDS && words < WORDS && bits < 64 && ahead == 64 * words + bits
      modifies seen
      ensures Moved(old(seen[..]), seen[..], ahead)
    {
      ghost var before := seen[..];
      if words > 0 {
        SlideWords(words);
      }
      ghost var between := seen[..];
      if bits > 0 {
        SlideBits(bits);
      }
      MovedInStages(before, between, seen[..], words, bits, ahead);
    }

    method Clear()
      requires seen.Length == WORDS
      modifies seen
      ensures forall b :: 0 <= b < WIDTH ==> !At(seen[..], b)
    {
      for k := 0 to WORDS
        invariant forall j :: 0 <= j < k ==> seen[j] == Zero()
      {
        seen[k] := Zero();
      }
    }

    method SlideWords(words: nat)
      requires seen.Length == WORDS && 0 < words < WORDS
      modifies seen
      ensures Moved(old(seen[..]), seen[..], 64 * words)
    {
      var index := WORDS;
      while index > 0
        invariant 0 <= index <= WORDS
        invariant seen[..index] == old(seen[..index])
        invariant forall k :: index <= k < WORDS ==> seen[k] == if k >= words then old(seen[k - words]) else Zero()
      {
        index := index - 1;
        seen[index] := if index >= words then seen[index - words] else Zero();
      }
      WordShiftMoves(old(seen[..]), seen[..], words);
    }

    method SlideBits(bits: nat)
      requires seen.Length == WORDS && 0 < bits < 64
      modifies seen
      ensures Moved(old(seen[..]), seen[..], bits)
    {
      ghost var before := seen[..];
      var carry := Zero();
      for k := 0 to WORDS
        invariant carry == Carry(before, bits, k)
        invariant seen[k..] == before[k..]
        invariant forall j :: 0 <= j < k ==> seen[j] == Or(Shl(before[j], bits), Carry(before, bits, j))
      {
        assert seen[k] == before[k];
        var shifted := Or(Shl(seen[k], bits), carry);
        carry := Shr(seen[k], 64 - bits);
        seen[k] := shifted;
      }
      BitShiftMoves(before, seen[..], bits);
    }
  }

  /** Feeding a run of numbers to the set, one after another. */
  ghost function Run(seen: Seen, numbers: seq<nat>): Seen
    decreases |numbers|
  {
    if numbers == [] then seen else Run(seen, numbers[..|numbers| - 1]).After(numbers[|numbers| - 1])
  }

  /** Over any run of arrivals no number is let through twice, and every one let through is remembered. */
  lemma {:induction false} FreshOnce(numbers: seq<nat>, i: nat, j: nat)
    requires i < j < |numbers|
    requires Run(Unseen, numbers[..i]).Answer(numbers[i]) == Fresh
    ensures numbers[i] in Run(Unseen, numbers[..j]).admitted
    ensures numbers[j] == numbers[i] ==> Run(Unseen, numbers[..j]).Answer(numbers[j]) != Fresh
  {
    assert numbers[..j][..j - 1] == numbers[..j - 1];
    if i < j - 1 {
      FreshOnce(numbers, i, j - 1);
    }
  }
}
