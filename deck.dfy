/** The stack controller's bookkeeping reduced to numbers: the count of
    consumed deck positions and, for each window position (0 = front), the
    deck index whose content that card shows. Each deck transition of the
    controller is a function here, and the controller's methods are proved to
    follow them. */
module KolodaDeck {
  import opened KolodaTypes

  /** How many cards the window holds at most (a fixed setting of the view). */
  const CountOfVisibleCards: nat := 3

  /** `current` deck positions are consumed; `window[i]` is the deck index
      shown at window position `i`. */
  datatype Deck = Deck(current: nat, window: seq<nat>)

  /** `n` consecutive deck indices starting at `from`. */
  function Range(from: nat, n: nat): (r: seq<nat>)
    ensures |r| == n
    ensures forall i :: 0 <= i < n ==> r[i] == from + i
  {
    if n == 0 then [] else Range(from, n - 1) + [from + n - 1]
  }

  /** The window shows the deck positions from `current` on, in order. */
  predicate Contiguous(d: Deck)
  {
    forall i :: 0 <= i < |d.window| ==> d.window[i] == d.current + i
  }

  /** How many cards a full window holds with `total` cards in the deck. */
  function WindowSize(current: nat, total: nat): (n: nat)
    ensures n <= CountOfVisibleCards
    ensures current < total ==> n > 0
    ensures current + n <= total || n == 0
  {
    if current < total then Min(CountOfVisibleCards, total - current) else 0
  }

  /** The window is a full, contiguous slice of the deck starting at the
      first unconsumed position. */
  predicate WellFormed(d: Deck, total: nat)
  {
    d.current <= total && |d.window| == WindowSize(d.current, total) && Contiguous(d)
  }

  /** Initial population: appends the cards for deck indices 0 .. n-1 where n
      is the number of cards still to come, capped at the window size. The
      indices start at 0 whatever `current` is. */
  function Setup(d: Deck, total: nat): (r: Deck)
    ensures r.current == d.current
    ensures |r.window| == |d.window| + WindowSize(d.current, total)
    ensures r.window[..|d.window|] == d.window
    ensures forall i :: |d.window| <= i < |r.window| ==> r.window[i] == i - |d.window|
  {
    Deck(d.current, d.window + Range(0, WindowSize(d.current, total)))
  }

  /** Whether a swipe that brings the counter to `current` appends a card:
      the deck holds index `current + count - 1`. */
  predicate SwipeAppends(current: nat, total: nat)
  {
    current + CountOfVisibleCards - 1 < total
  }

  /** A committed swipe: the front card leaves, one more position is
      consumed, and the card for deck index `current + count - 1` (counted
      after the advance) joins at the back if the deck has it. */
  function Swipe(d: Deck, total: nat): (r: Deck)
    requires |d.window| > 0
    ensures r.current == d.current + 1
    ensures |r.window| == |d.window| - 1 + (if r.current + CountOfVisibleCards - 1 < total then 1 else 0)
    ensures r.window[..|d.window| - 1] == d.window[1..]
    ensures r.current + CountOfVisibleCards - 1 < total ==>
              r.window[|r.window| - 1] == r.current + CountOfVisibleCards - 1
  {
    var current := d.current + 1;
    var shown := current + CountOfVisibleCards;
    Deck(current, d.window[1..] + (if SwipeAppends(current, total) then [shown - 1] else []))
  }

  /** Whether a revert drops the back card: only with a non-empty window and
      at least a full window's worth of cards left to show. */
  predicate RevertDropsLast(d: Deck, total: nat)
  {
    |d.window| > 0 && CountOfVisibleCards <= total - d.current
  }

  /** A revert: maybe drops the back card, then steps back one position and
      puts the card for that position at the front. */
  function Revert(d: Deck, total: nat): (r: Deck)
    requires d.current > 0
    ensures r.current == d.current - 1
    ensures |r.window| > 0 && r.window[0] == r.current
    ensures r.window[1..] == if RevertDropsLast(d, total) then d.window[..|d.window| - 1] else d.window
  {
    var kept := if RevertDropsLast(d, total) then d.window[..|d.window| - 1] else d.window;
    Deck(d.current - 1, [d.current - 1] + kept)
  }

  /** Back-fill: appends up to `missing` cards (never more than the deck has
      left), then re-skins every window position `i` with deck index
      `current + i`. With cards missing, the deck must have one left: the
      source's closed range `1...cardsToAdd` traps otherwise. */
  function LoadMissing(d: Deck, missing: int, total: nat): (r: Deck)
    requires 0 < missing ==> d.current < total
    ensures r.current == d.current
    ensures |r.window| == |d.window| + LoadMissingCount(d, missing, total)
    ensures Contiguous(r)
  {
    var n := |d.window| + LoadMissingCount(d, missing, total);
    Deck(d.current, Range(d.current, n))
  }

  /** The number of cards back-fill appends: `missing`, capped by the cards
      the deck has left. */
  function LoadMissingCount(d: Deck, missing: int, total: nat): (n: nat)
    requires 0 < missing ==> d.current < total
    ensures n <= if missing > 0 then missing else 0
    ensures 0 < missing ==> d.current + n <= total
    ensures 0 < missing ==> 0 < n
  {
    if 0 < missing then Min(missing, total - d.current) else 0
  }

  /** Re-skin: every window position `i` shows deck index `current + i`. */
  function Reskin(d: Deck): (r: Deck)
    ensures r.current == d.current && |r.window| == |d.window|
    ensures Contiguous(r)
  {
    Deck(d.current, Range(d.current, |d.window|))
  }

  /** The window after a reload's clearing step: the whole window is dropped
      when the counter is 0. */
  function ReloadStart(d: Deck): (r: Deck)
    ensures d.current == 0 ==> r == Deck(0, [])
    ensures d.current != 0 ==> r == d
  {
    if d.current == 0 then Deck(0, []) else d
  }

  /** Whether refilling takes the population path (an empty window with
      cards left to show), the one that starts the appear animation. */
  predicate RefillPopulates(d: Deck, total: nat)
  {
    0 < total - (d.current + |d.window|) && |d.window| == 0
  }

  /** Whether refilling takes the back-fill path (a non-empty window with
      cards left to show beyond it). */
  predicate RefillBackFills(d: Deck, total: nat)
  {
    0 < total - (d.current + |d.window|) && |d.window| > 0
  }

  /** A reload's second step: with cards missing from the window a back-fill
      (or, for an empty window, a population), otherwise a re-skin of every
      card. */
  function Refill(d: Deck, total: nat): Deck
  {
    if 0 < total - (d.current + |d.window|) then
      if |d.window| > 0 then
        LoadMissing(d, Min(CountOfVisibleCards - |d.window|, total - (d.current + 1)), total)
      else
        Setup(d, total)
    else
      Reskin(d)
  }

  /** Reload with `total` cards in the deck: nothing when the deck is empty;
      otherwise the clearing step at counter 0, then a refill. */
  function Reload(d: Deck, total: nat): Deck
  {
    if total == 0 then d else Refill(ReloadStart(d), total)
  }

  /** Whether a reload takes the population path. */
  predicate ReloadPopulates(d: Deck, total: nat)
  {
    0 < total && RefillPopulates(ReloadStart(d), total)
  }

  // ---------------------------------------------------------------------
  // Properties

  /** A committed swipe keeps a well-formed window well-formed. */
  lemma {:induction false} SwipePreservesWellFormed(d: Deck, total: nat)
    requires WellFormed(d, total) && |d.window| > 0
    ensures WellFormed(Swipe(d, total), total)
  {
    var r := Swipe(d, total);
    forall i | 0 <= i < |r.window|
      ensures r.window[i] == r.current + i
    {
      if i < |d.window| - 1 {
        assert r.window[i] == d.window[1..][i] == d.window[i + 1];
      }
    }
  }

  /** A revert keeps a well-formed window well-formed. */
  lemma {:induction false} RevertPreservesWellFormed(d: Deck, total: nat)
    requires WellFormed(d, total) && d.current > 0
    ensures WellFormed(Revert(d, total), total)
  {
    var r := Revert(d, total);
    forall i | 0 <= i < |r.window|
      ensures r.window[i] == r.current + i
    {
      if i > 0 {
        assert r.window[i] == r.window[1..][i - 1];
      }
    }
  }

  /** Swipe then revert is the identity on a well-formed window: the count of
      consumed positions and the deck index at every window position come
      back. */
  lemma {:induction false} RevertUndoesSwipe(d: Deck, total: nat)
    requires WellFormed(d, total) && |d.window| > 0
    ensures Revert(Swipe(d, total), total) == d
  {
    var s := Swipe(d, total);
    var r := Revert(s, total);
    assert |r.window| == |d.window|;
    forall i | 0 <= i < |d.window|
      ensures r.window[i] == d.window[i]
    {
      if i > 0 {
        assert r.window[i] == r.window[1..][i - 1];
        assert s.window[i - 1] == d.window[1..][i - 1];
      }
    }
  }

  /** Reloading from position 0 shows the first cards of the deck, as many
      as fit in the window. */
  lemma ReloadFromStart(d: Deck, total: nat)
    requires d.current == 0 && total > 0
    ensures Reload(d, total) == Deck(0, Range(0, Min(CountOfVisibleCards, total)))
    ensures WellFormed(Reload(d, total), total)
  {
  }

  /** Back-fill never grows the window past the window size, and (for a window
      no longer than that) fills it exactly up to the number of cards left. */
  lemma {:induction false} ReloadBackFillBounded(d: Deck, total: nat)
    requires d.current > 0 && 0 < |d.window| && d.current + |d.window| < total
    ensures var r := Reload(d, total);
            |r.window| <= if |d.window| <= CountOfVisibleCards then CountOfVisibleCards else |d.window|
    ensures |d.window| <= CountOfVisibleCards ==> WellFormed(Reload(d, total), total)
  {
    var missing := Min(CountOfVisibleCards - |d.window|, total - (d.current + 1));
    assert Reload(d, total) == LoadMissing(d, missing, total);
    assert |d.window| <= CountOfVisibleCards ==> |Reload(d, total).window| == WindowSize(d.current, total);
  }

  /** After the deck has grown (or stayed the same), a reload restores a
      well-formed window, unless the window had run empty at a later position
      (see SetupIgnoresCounter). */
  lemma {:induction false} ReloadAfterGrowth(d: Deck, before: nat, total: nat)
    requires WellFormed(d, before) && before <= total && 0 < total
    requires d.current == 0 || |d.window| > 0
    ensures WellFormed(Reload(d, total), total)
  {
    if d.current == 0 {
      ReloadFromStart(d, total);
    } else if d.current + |d.window| < total {
      ReloadBackFillBounded(d, total);
    } else {
      assert d.current + |d.window| <= before;
      assert Reload(d, total) == Reskin(d);
    }
  }

  /** The population ignores the consumed count: once the deck has run out
      and grown again, a reload of the empty window shows deck indices from 0
      rather than from `current`. */
  lemma SetupIgnoresCounter(current: nat, total: nat)
    requires 0 < current < total
    ensures Reload(Deck(current, []), total).window[0] == 0
    ensures !Contiguous(Reload(Deck(current, []), total))
  {
  }
}
