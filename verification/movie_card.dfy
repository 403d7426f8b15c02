/**
  The interaction logic of one movie card (components/MovieCard.tsx).

  A card remembers the time of its last tap (`lastTap`, 0 meaning "no tap yet"). A tap
  asks the screen to toggle the favourite when a previous tap exists and the gap is
  strictly under the double-tap window; either way the tap becomes the new last tap.
  The clock is an explicit input: `now` stands for the value `Date.now()` returned.
 */
module MovieCard {

  /** Double-tap window in milliseconds. */
  const DoubleTapWindow: int := 300

  /** The card's only mutable state: the `lastTap` ref. */
  datatype TapState = TapState(lastTap: int)

  /** A freshly mounted card: `useRef<number>(0)`. */
  const Mounted := TapState(0)

  /** The state after an event and how many times `onToggleFavorite` was called. */
  datatype TapOutcome = TapOutcome(next: TapState, toggles: nat)

  /** The guard of `handleDoubleTap`: a previous tap exists and came less than 300 ms ago. */
  predicate IsDoubleTap(lastTap: int, now: int)
  {
    lastTap != 0 && now - lastTap < DoubleTapWindow
  }

  /** `handleDoubleTap`, with the clock reading passed in as `now`. */
  function HandleDoubleTap(st: TapState, now: int): (r: TapOutcome)
    ensures r.next.lastTap == now
    ensures r.toggles <= 1
    ensures r.toggles == 1 <==> st.lastTap != 0 && now - st.lastTap < 300
    ensures st.lastTap == 0 ==> r.toggles == 0
  {
    TapOutcome(TapState(now), if IsDoubleTap(st.lastTap, now) then 1 else 0)
  }

  /** `handleFavoritePress`: the heart button toggles once, with no timing condition. */
  function HandleFavoritePress(st: TapState): (r: TapOutcome)
    ensures r.toggles == 1
    ensures r.next == st
  {
    TapOutcome(st, 1)
  }

  /** Text colour of the favourite button. */
  datatype Color = Red | Gray

  /** Label of the favourite button. */
  function FavoriteLabel(isFavorite: bool): string
  {
    if isFavorite then "♥ Favorited" else "♡ Favorite"
  }

  /** Colour of the favourite button. */
  function FavoriteColor(isFavorite: bool): Color
  {
    if isFavorite then Red else Gray
  }

  /** The label and the colour each tell exactly whether the card is a favourite. */
  lemma FavoriteAppearance(isFavorite: bool)
    ensures FavoriteLabel(isFavorite) == "♥ Favorited" <==> isFavorite
    ensures FavoriteLabel(isFavorite) == "♡ Favorite" <==> !isFavorite
    ensures FavoriteColor(isFavorite) == Red <==> isFavorite
    ensures FavoriteColor(isFavorite) == Gray <==> !isFavorite
  {
  }

  // ---------------------------------------------------------------------------
  // Runs of taps

  /** The outcome of a run of taps at the given clock readings: new state and, per tap, whether it fired. */
  datatype RunOutcome = RunOutcome(next: TapState, fired: seq<bool>)

  /** Feed the taps at `times` to `handleDoubleTap` one after another. */
  function Taps(st: TapState, times: seq<int>): (r: RunOutcome)
    ensures |r.fired| == |times|
    decreases |times|
  {
    if |times| == 0 then RunOutcome(st, [])
    else
      var step := HandleDoubleTap(st, times[0]);
      var rest := Taps(step.next, times[1..]);
      RunOutcome(rest.next, [step.toggles == 1] + rest.fired)
  }

  /** The clock reading a tap is compared with: the tap before it, or the card's state for the first one. */
  function PreviousTap(st: TapState, times: seq<int>, i: int): int
    requires 0 <= i < |times|
  {
    if i == 0 then st.lastTap else times[i - 1]
  }

  /**
    In any run, tap `i` fires exactly when the tap before it (firing or not) was at a
    non-zero time and less than 300 ms earlier, and the card ends up remembering the last tap.
   */
  lemma {:induction false} TapsFireOnQuickGaps(st: TapState, times: seq<int>)
    ensures forall i :: 0 <= i < |times| ==>
      (Taps(st, times).fired[i] <==> PreviousTap(st, times, i) != 0 && times[i] - PreviousTap(st, times, i) < 300)
    ensures |times| > 0 ==> Taps(st, times).next.lastTap == times[|times| - 1]
    ensures |times| == 0 ==> Taps(st, times).next == st
    decreases |times|
  {
    if |times| > 0 {
      var step := HandleDoubleTap(st, times[0]);
      TapsFireOnQuickGaps(step.next, times[1..]);
      forall i | 1 <= i < |times|
        ensures PreviousTap(st, times, i) == PreviousTap(step.next, times[1..], i - 1)
      {
      }
    }
  }

  /**
    Because `lastTap` is overwritten even when a tap fires, three taps on a fresh card, each
    under 300 ms after the previous one, fire on the second and on the third tap.
   */
  lemma TripleTapFiresTwice(t0: int, t1: int, t2: int)
    requires t0 != 0 && t1 != 0
    requires t1 - t0 < 300 && t2 - t1 < 300
    ensures Taps(Mounted, [t0, t1, t2]).fired == [false, true, true]
  {
    TapsFireOnQuickGaps(Mounted, [t0, t1, t2]);
  }

  /** A tap at clock reading 0 leaves the card as if it had never been tapped. */
  lemma TapAtZeroForgets(st: TapState, now: int)
    ensures HandleDoubleTap(HandleDoubleTap(st, 0).next, now).toggles == 0
  {
  }
}
