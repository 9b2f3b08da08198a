/** The sliding anti-replay window. `Window` says what the window means: the highest
    committed counter and the committed counters less than 2048 below it.
    `ReplayWindow` is the 2048-bit ring of 32 words, shifted in place. */
module ReplayWindows {
  import opened Words

  const WINDOW_BITS := 2048
  const WINDOW_WORDS := 32

  // ── What the window means ──

  datatype Window = Window(seeded: bool, highest: u64, seen: set<u64>) {

    predicate Accepts(counter: u64) {
      !seeded || counter > highest || (highest - counter < WINDOW_BITS && counter !in seen)
    }

    function Commit(counter: u64): Window {
      if !seeded then Window(true, counter, {counter})
      else if counter > highest then
        Window(true, counter, {counter} + set c | c in seen && counter - c < WINDOW_BITS)
      else if highest - counter < WINDOW_BITS then
        Window(true, highest, seen + {counter})
      else this
    }
  }

  const EMPTY := Window(false, 0, {})

  /** The window after a sequence of commits. */
  function After(history: seq<u64>): Window {
    if history == [] then EMPTY
    else After(history[..|history| - 1]).Commit(history[|history| - 1])
  }

  function Max(history: seq<u64>): (m: u64)
    requires history != []
    ensures m in history
    ensures forall c | c in history :: c <= m
  {
    var last := history[|history| - 1];
    if |history| == 1 then last
    else
      var m := Max(history[..|history| - 1]);
      assert forall c | c in history :: c == last || c in history[..|history| - 1];
      if last > m then last else m
  }

  /** The bounded window forgets nothing that matters: it holds the maximum of all
      commits and exactly the commits less than 2048 below it. */
  lemma {:induction false} WindowRefinesHistory(history: seq<u64>)
    requires history != []
    ensures After(history).seeded && After(history).highest == Max(history)
    ensures After(history).seen == set c | c in history && Max(history) - c < WINDOW_BITS
  {
    var n := |history| - 1;
    var before, last := history[..n], history[n];
    assert history == before + [last];
    if before != [] { WindowRefinesHistory(before); }
  }

  /** The check decides membership in the unbounded set of committed counters,
      for every counter that is not 2048 or more below the highest. */
  lemma AcceptsIff(history: seq<u64>, counter: u64)
    ensures After(history).Accepts(counter) <==>
            history == [] || counter > Max(history)
            || (Max(history) - counter < WINDOW_BITS && counter !in history)
  {
    if history != [] { WindowRefinesHistory(history); }
  }

  /** No commit has used the counter up or left it behind. */
  predicate Untouched(history: seq<u64>, counter: u64) {
    forall d | d in history :: d != counter && d < counter + WINDOW_BITS
  }

  lemma UntouchedAppend(before: seq<u64>, more: seq<u64>, counter: u64)
    ensures Untouched(before + more, counter) <==> Untouched(before, counter) && Untouched(more, counter)
  {
    assert forall d | d in before :: d in before + more;
    assert forall d | d in more :: d in before + more;
  }

  lemma AcceptsIffUntouched(history: seq<u64>, counter: u64)
    ensures After(history).Accepts(counter) <==> Untouched(history, counter)
  {
    AcceptsIff(history, counter);
    if history != [] && Untouched(history, counter) { assert Max(history) in history; }
  }

  /** A committed counter is refused from then on, whatever was committed since. */
  lemma NeverTwice(history: seq<u64>, counter: u64)
    requires counter in history
    ensures !After(history).Accepts(counter)
  {
    AcceptsIff(history, counter);
  }

  lemma AfterAppend(history: seq<u64>, counter: u64)
    ensures After(history + [counter]) == After(history).Commit(counter)
  {
    assert (history + [counter])[..|history|] == history;
  }

  // ── The bitmap ──

  ghost predicate BitOf(words: seq<u64>, j: nat)
    requires |words| == WINDOW_WORDS && j < WINDOW_BITS
  {
    Bit(words[j / 64], j % 64)
  }

  ghost predicate Marks(words: seq<u64>, highest: u64, counter: u64)
    requires |words| == WINDOW_WORDS && highest - WINDOW_BITS < counter <= highest
  {
    BitOf(words, highest - counter)
  }

  /** Word i of the bitmap shifted up by `shift` places, with the carry of the word below. */
  function ShiftedWord(words: seq<u64>, shift: nat, i: nat): (v: u64)
    requires |words| == WINDOW_WORDS && shift < WINDOW_BITS && i < WINDOW_WORDS
  {
    var w, b := shift / 64, shift % 64;
    if i < w then 0
    else if b == 0 then words[i - w]
    else if i == w then Shl(words[i - w], b)
    else
      Pow2Of64();
      OrBound(Shl(words[i - w], b), Shr(words[i - w - 1], 64 - b), 64);
      Or(Shl(words[i - w], b), Shr(words[i - w - 1], 64 - b))
  }

  lemma ShiftedWordBit(words: seq<u64>, shift: nat, i: nat, k: nat)
    requires |words| == WINDOW_WORDS && shift < WINDOW_BITS && i < WINDOW_WORDS && k < 64
    ensures Bit(ShiftedWord(words, shift, i), k)
         == (shift <= 64 * i + k && BitOf(words, 64 * i + k - shift))
  {
    var w, b := shift / 64, shift % 64;
    if i < w {
      ShrZero(k);
    } else {
      if b > 0 {
        ShlBit(words[i - w], b, k);
        if i > w {
          OrBit(Shl(words[i - w], b), Shr(words[i - w - 1], 64 - b), k);
          CarryBit(words[i - w - 1], b, k);
        }
      }
      SplitIndex(i, k, w, b);
    }
  }

  /** One left shift of the whole number: bit j is bit j - shift before, or 0. */
  ghost predicate IsShifted(was: seq<u64>, now: seq<u64>, shift: nat) {
    && |was| == |now| == WINDOW_WORDS
    && forall j | 0 <= j < WINDOW_BITS :: BitOf(now, j) == (shift <= j && BitOf(was, j - shift))
  }

  /** Bit `delta` is set and every other bit is as it was. */
  ghost predicate IsSetAt(was: seq<u64>, now: seq<u64>, delta: nat) {
    && |was| == |now| == WINDOW_WORDS
    && forall j | 0 <= j < WINDOW_BITS :: BitOf(now, j) == (j == delta || BitOf(was, j))
  }

  ghost predicate IsClear(now: seq<u64>) {
    |now| == WINDOW_WORDS && forall j | 0 <= j < WINDOW_BITS :: !BitOf(now, j)
  }

  lemma ClearIsShifted(was: seq<u64>, now: seq<u64>, shift: nat)
    requires |was| == WINDOW_WORDS && IsClear(now) && shift >= WINDOW_BITS
    ensures IsShifted(was, now, shift)
  {}

  lemma ShiftedWordsBits(was: seq<u64>, now: seq<u64>, shift: nat)
    requires |was| == |now| == WINDOW_WORDS && shift < WINDOW_BITS
    requires forall k | 0 <= k < WINDOW_WORDS :: now[k] == ShiftedWord(was, shift, k)
    ensures IsShifted(was, now, shift)
  {
    forall j | 0 <= j < WINDOW_BITS
      ensures BitOf(now, j) == (shift <= j && BitOf(was, j - shift))
    {
      ShiftedWordBit(was, shift, j / 64, j % 64);
    }
  }

  /** Where bit 64i+k comes from when shifted by 64w+b: word and place. */
  lemma SplitIndex(i: nat, k: nat, w: nat, b: nat)
    requires w <= i && k < 64 && b < 64
    ensures b <= k ==> (64 * i + k - (64 * w + b)) / 64 == i - w && (64 * i + k - (64 * w + b)) % 64 == k - b
    ensures k < b && w < i ==>
            (64 * i + k - (64 * w + b)) / 64 == i - w - 1 && (64 * i + k - (64 * w + b)) % 64 == k + 64 - b
  {
    var d := 64 * i + k - (64 * w + b);
    if b <= k { assert d == 64 * (i - w) + (k - b); }
    else { assert d == 64 * (i - w - 1) + (k + 64 - b); }
  }

  lemma {:induction false} ShrZero(n: nat)
    ensures Shr(0, n) == 0
  {}

  // ── What the bits stand for ──

  /** The counters whose bit is set, each at its distance below `highest`. */
  ghost function SeenBy(words: seq<u64>, highest: u64): set<u64>
    requires |words| == WINDOW_WORDS
  {
    set c: u64 | highest - WINDOW_BITS < c <= highest && Marks(words, highest, c)
  }

  lemma SeenNone(now: seq<u64>, highest: u64)
    requires IsClear(now)
    ensures SeenBy(now, highest) == {}
  {
    forall c: u64 ensures c !in SeenBy(now, highest) {
      if highest - WINDOW_BITS < c <= highest { assert !BitOf(now, highest - c); }
    }
  }

  lemma SeenOneMore(was: seq<u64>, now: seq<u64>, highest: u64, counter: u64)
    requires counter <= highest && highest - counter < WINDOW_BITS && IsSetAt(was, now, highest - counter)
    ensures SeenBy(now, highest) == {counter} + SeenBy(was, highest)
  {
    forall c: u64 ensures c in SeenBy(now, highest) <==> c in {counter} + SeenBy(was, highest) {
      if highest - WINDOW_BITS < c <= highest {
        assert BitOf(now, highest - c) == (highest - c == highest - counter || BitOf(was, highest - c));
      }
    }
  }

  lemma SeenShifted(was: seq<u64>, now: seq<u64>, highest: u64, counter: u64)
    requires counter > highest && IsShifted(was, now, counter - highest)
    ensures SeenBy(now, counter) == set c | c in SeenBy(was, highest) && counter - c < WINDOW_BITS
  {
    forall c: u64 ensures c in SeenBy(now, counter) <==> c in SeenBy(was, highest) && counter - c < WINDOW_BITS {
      if counter - WINDOW_BITS < c <= counter {
        assert BitOf(now, counter - c) == (counter - highest <= counter - c && BitOf(was, counter - c - (counter - highest)));
        assert counter - c - (counter - highest) == highest - c;
      }
    }
  }

  class ReplayWindow {
    var highest: u64
    const bitmap: array<u64>
    var seeded: bool

    ghost predicate Valid()
      reads this
    {
      bitmap.Length == WINDOW_WORDS
    }

    ghost function Seen(): set<u64>
      requires Valid()
      reads this, bitmap
    {
      SeenBy(bitmap[..], highest)
    }

    ghost function Model(): Window
      requires Valid()
      reads this, bitmap
    {
      if seeded then Window(true, highest, Seen()) else EMPTY
    }

    constructor ()
      ensures Valid() && fresh(bitmap) && Model() == EMPTY
    {
      highest := 0;
      bitmap := new u64[WINDOW_WORDS](_ => 0);
      seeded := false;
    }

    predicate BitIsSet(delta: nat)
      requires Valid() && delta < WINDOW_BITS
      reads this, bitmap
      ensures BitIsSet(delta) == BitOf(bitmap[..], delta)
    {
      Bit(bitmap[delta / 64], delta % 64)
    }

    method SetBit(delta: nat)
      requires Valid() && delta < WINDOW_BITS
      modifies bitmap
      ensures IsSetAt(old(bitmap[..]), bitmap[..], delta)
    {
      var word, bit := delta / 64, delta % 64;
      ghost var was := bitmap[word];
      Pow2Of64();
      OrBound(bitmap[word], Shl(1, bit), 64);
      bitmap[word] := Or(bitmap[word], Shl(1, bit));
      forall j | 0 <= j < WINDOW_BITS
        ensures BitOf(bitmap[..], j) == (j == delta || BitOf(old(bitmap[..]), j))
      {
        OrBit(was, Shl(1, bit), j % 64);
        OneBit(bit, j % 64);
      }
    }

    method Clear()
      requires Valid()
      modifies bitmap
      ensures IsClear(bitmap[..])
    {
      forall i | 0 <= i < WINDOW_WORDS { bitmap[i] := 0; }
      forall j | 0 <= j < WINDOW_BITS ensures !BitOf(bitmap[..], j) {
        ShrZero(j % 64);
      }
    }

    /** One left shift of the 2048-bit number, word by word from the top down. */
    method ShiftWindow(shift: u64)
      requires Valid()
      modifies bitmap
      ensures IsShifted(old(bitmap[..]), bitmap[..], shift)
    {
      ghost var was := bitmap[..];
      if shift >= WINDOW_BITS {
        Clear();
        ClearIsShifted(was, bitmap[..], shift);
        return;
      }
      var wordShift, bitShift := shift / 64, shift % 64;
      var i := WINDOW_WORDS;
      while i > 0
        invariant 0 <= i <= WINDOW_WORDS
        invariant forall k | 0 <= k < i :: bitmap[k] == was[k]
        invariant forall k | i <= k < WINDOW_WORDS :: bitmap[k] == ShiftedWord(was, shift, k)
      {
        i := i - 1;
        if bitShift == 0 {
          bitmap[i] := if i >= wordShift then bitmap[i - wordShift] else 0;
        } else {
          var v: u64 := 0;
          if i >= wordShift {
            v := Shl(bitmap[i - wordShift], bitShift);
            if i > wordShift {
              Pow2Of64();
              OrBound(v, Shr(bitmap[i - wordShift - 1], 64 - bitShift), 64);
              v := Or(v, Shr(bitmap[i - wordShift - 1], 64 - bitShift));
            }
          }
          bitmap[i] := v;
        }
      }
      ShiftedWordsBits(was, bitmap[..], shift);
    }

    /** The cheap test before decryption, repeated under the lock before `Commit`. */
    predicate Check(counter: u64)
      requires Valid()
      reads this, bitmap
      ensures Check(counter) == Model().Accepts(counter)
    {
      if !seeded then true
      else if counter > highest then true
      else
        var delta := highest - counter;
        if delta >= WINDOW_BITS then false else !BitIsSet(delta)
    }

    /** Sets the bit of a counter at or below the highest. */
    method Mark(counter: u64)
      requires Valid() && counter <= highest && highest - counter < WINDOW_BITS
      modifies bitmap
      ensures Seen() == {counter} + old(Seen())
    {
      ghost var was := bitmap[..];
      SetBit(highest - counter);
      SeenOneMore(was, bitmap[..], highest, counter);
    }

    /** Moves the window up to a new highest counter. */
    method Raise(counter: u64)
      requires Valid() && counter > highest
      modifies this`highest, bitmap
      ensures highest == counter
      ensures Seen() == set c | c in old(Seen()) && counter - c < WINDOW_BITS
    {
      ghost var was := bitmap[..];
      ShiftWindow(counter - highest);
      SeenShifted(was, bitmap[..], highest, counter);
      highest := counter;
    }

    method Commit(counter: u64)
      requires Valid()
      modifies this, bitmap
      ensures Valid() && Model() == old(Model()).Commit(counter)
    {
      if !seeded {
        seeded := true;
        highest := counter;
        Clear();
        SeenNone(bitmap[..], counter);
        Mark(counter);
      } else if counter > highest {
        Raise(counter);
        Mark(counter);
      } else {
        var delta := highest - counter;
        if delta < WINDOW_BITS {
          Mark(counter);
        }
      }
    }
  }
}
