# Movie card, favourites and accordion logic

This project models in Dafny the small pieces of deterministic state logic in a React
Native movie-recommendation client:

- **Favourites** (`components/movies.tsx`): the screen keeps an ordered list of movie ids.
  `toggleFavorite(id)` removes every copy of `id` when it is present and appends it
  otherwise. A card is shown as a favourite when its id is in the list. Each catalog
  record becomes a card record whose image URL is the catalog's poster host followed by
  the record's poster path.
- **Movie card** (`components/MovieCard.tsx`): each card remembers the time of its last
  tap. The value 0 means "no tap yet". A tap asks for a favourite toggle when a previous
  tap exists and came strictly less than 300 ms earlier. The tap then always becomes the
  new last tap. The heart button always asks for exactly one toggle. The button's label
  and colour reflect whether the card is a favourite.
- **Accordion section** (`components/AccordionSection.tsx`): the section is controlled when
  the parent passes `expanded` and uncontrolled otherwise. An uncontrolled section keeps
  an internal flag that starts collapsed. A press notifies `onToggle` when it was given,
  and flips the internal flag only when uncontrolled. The content is shown only while
  expanded, and the title's suffix tells which state the section is in.

React hooks become explicit state values and transition functions. `Date.now()` becomes
an integer parameter. Each callback invocation becomes a count in the transition's
result.

Files: `wrappers.dfy` (an `Option` type), `favorites.dfy` (module `Favorites`),
`movie_card.dfy` (module `MovieCard`), `movies.dfy` (module `Movies`: card records,
rendering and card events on the screen), `accordion.dfy` (module `Accordion`).

Notes on fidelity:
- A JSON `null` poster path renders as the text `"null"` inside the template literal, so
  `Movies.PosterText(None)` is `"null"`.
- The expanded-title suffix at `components/AccordionSection.tsx:54` is stored in the file as
  three characters, U+00E2 U+20AC U+201C, which is a mis-decoded en dash. The model keeps
  those characters as they are written.
- `lastTap` is compared by JavaScript truthiness, so only 0 counts as "no tap". A tap at
  clock reading 0 therefore puts the card back into the "no tap yet" state. A clock that
  went backwards gives a negative gap, and a negative gap fires.
- Each card keeps its own `lastTap`, because every `MovieCard` instance has its own ref.
  `Movies.Screen` keeps one tap state per movie id, which is the card's React key. This
  equals one tap state per card only when the catalog ids are unique.
- A missing poster is an explicit JSON `null` in the catalog's records. `None` models that
  form only; an absent field would render as `"undefined"` instead.

## Model

| member | source | states |
|---|---|---|
| Favorites.RemoveAll | components/movies.tsx:15 | the filtered list holds no copy of the id, holds every other id exactly when the input does, is no longer than the input, and is the input itself when the id was absent |
| Favorites.RemoveAllIsSubsequence | components/movies.tsx:15 | the filter keeps the surviving entries in their original relative order |
| Favorites.RemoveAllMultiset | components/movies.tsx:15 | the filter deletes every occurrence of the id and keeps every other occurrence |
| Favorites.RemoveAllUnique | components/movies.tsx:15 | any order-preserving sub-list with exactly the non-matching occurrences equals the filter's result, so the two properties above fully determine the filter |
| Favorites.Toggle | components/movies.tsx:12-18 | after a toggle the id is a favourite iff it was not one before, and every other id's membership is unchanged |
| Favorites.ToggleAbsentAppends | components/movies.tsx:16 | toggling an absent id adds exactly one entry, the id, at the end, and every earlier entry keeps its value and position |
| Favorites.TogglePresentRemoves | components/movies.tsx:15 | toggling a present id removes all its occurrences, keeps all other occurrences in their relative order, and shortens the list |
| Favorites.RemoveAllNoDuplicates | components/movies.tsx:15 | filtering a duplicate-free list gives a duplicate-free list |
| Favorites.ToggleNoDuplicates | components/movies.tsx:14-16 | if the favourites list has no duplicates, neither does the toggled list |
| Favorites.RemoveAllAppended | components/movies.tsx:15-16 | removing an id that was only appended at the end restores the list |
| Favorites.ToggleAbsentTwice | components/movies.tsx:14-16 | toggling an absent id twice returns exactly the original list |
| Favorites.ToggleTwiceMembership | components/movies.tsx:14-16 | toggling any id twice restores whether it is a favourite, even when the list itself changes |
| MovieCard.HandleDoubleTap | components/MovieCard.tsx:36-44 | a tap requests exactly one toggle iff the last tap is non-zero and less than 300 ms ago (a 300 ms gap does not fire), never fires when there was no previous tap, and always records the tap's time |
| MovieCard.HandleFavoritePress | components/MovieCard.tsx:46-49 | pressing the heart requests exactly one toggle with no timing condition and leaves the tap memory alone |
| MovieCard.FavoriteAppearance | components/MovieCard.tsx:73-77 | the label is "♥ Favorited" and the colour red iff the card is a favourite, and otherwise "♡ Favorite" and gray |
| MovieCard.TapsFireOnQuickGaps | components/MovieCard.tsx:36-44 | in any run of taps, each tap fires iff the tap before it (whether or not that one fired) was at a non-zero time less than 300 ms earlier, and the card ends remembering the last tap |
| MovieCard.TripleTapFiresTwice | components/MovieCard.tsx:36-44 | three taps on a fresh card, each less than 300 ms after the previous, fire on the second and the third tap |
| MovieCard.TapAtZeroForgets | components/MovieCard.tsx:38-43 | a tap at clock reading 0 leaves the card in the "no previous tap" state, so the next tap cannot fire |
| Movies.ToCard | components/movies.tsx:45-50 | the card copies id and title, takes the overview as description, and its image is the 500-pixel poster host followed by the poster path ("null" when absent) |
| Movies.PosterPathRecoverable | components/movies.tsx:49 | a present poster path can be read back from the card's image after the host prefix |
| Movies.Render | components/movies.tsx:42-54 | one card per catalog record in catalog order, each built from its record and shown as favourite iff its id is in the favourites list |
| Movies.Apply | components/movies.tsx:51-52 | a card event replaces the favourites list by its toggle on the card's id iff the card's handler fired and leaves it exactly as it was otherwise, so it flips that card's favourite status iff the handler fired, and leaves every other id's membership and every other card's tap memory unchanged |
| Movies.PressFlipsRenderedFavorite | components/movies.tsx:51-52 | pressing a rendered card's heart flips the flag that card shows and no flag of a card with another id |
| Movies.TripleTapRestoresFavorites | components/MovieCard.tsx:36-44 | three quick taps on a fresh card whose movie is not a favourite leave the favourites list exactly as it was, because the list is toggled twice |
| Movies.EventsKeepNoDuplicates | components/movies.tsx:12-18 | any sequence of card events keeps a duplicate-free favourites list duplicate-free |
| Accordion.Toggle | components/AccordionSection.tsx:40-43 | a press notifies `onToggle` exactly once when it is given and never otherwise, flips the internal flag when uncontrolled, and leaves it unchanged when controlled |
| Accordion.TitleText | components/AccordionSection.tsx:54 | the title line starts with the title followed by a space |
| Accordion.ControlledIgnoresInternal | components/AccordionSection.tsx:25-27 | with an `expanded` prop the displayed state is that prop whatever the internal flag holds |
| Accordion.UncontrolledStartsCollapsed | components/AccordionSection.tsx:26-27 | a newly mounted uncontrolled section is collapsed, shows no content, and its title ends in " +" |
| Accordion.ToggleDisplay | components/AccordionSection.tsx:25-43 | a press flips what an uncontrolled section shows and does not change what a controlled one shows |
| Accordion.ToggleTwiceRestores | components/AccordionSection.tsx:40-43 | two presses restore the state and the display in both modes, and notify twice when `onToggle` is given |
| Accordion.PressesParity | components/AccordionSection.tsx:40-43 | after any number of presses `onToggle` was called that many times when given; an uncontrolled section shows the opposite of its start iff the count is odd; a controlled one keeps its state |
| Accordion.TitleSuffixTracksVisibility | components/AccordionSection.tsx:54-60 | the title suffix is "+" iff the content is hidden and the expanded suffix iff the content is rendered |
| Accordion.ParentControlledFlips | components/AccordionSection.tsx:25-43 | under a parent that flips its flag on every notification (as the profile and genre sections of the home screen do), after any number of presses the internal flag is unchanged and the section shows the opposite of its start iff the count is odd |

## Left out

- The popular-movies fetch and its loading and error screens (`components/movies.tsx:20-38`): network I/O. The catalog records are a parameter of `Movies.Render`.
- All animation: the heart's spring scale (`components/MovieCard.tsx:22-34`), the accordion height interpolation (`components/AccordionSection.tsx:32-48`), and `components/LoadAnimation.tsx`. These are timing-driven and use floating-point geometry.
- `Date.now()`: the clock reading is the `now` parameter of `MovieCard.HandleDoubleTap`.
- `onPressDetails` navigation and the hover style of the card: presentation only.
- `components/MoviePreview.tsx`, `components/GenreTile.tsx`, `app.config.js`, `theme.ts` and the screens under `app/`: presentation, routing, configuration and constant tables. The favourites toggle repeated in `app/(tabs)/two.tsx` is the same code as the one modelled.
- The recommendation pipeline (language-model completion, catalog search, related items): its code is not part of this model.
- Duplicate catalog ids: cards that share a movie id share one React key, which React does not support. The model then keeps one tap state for both cards, while the running app would keep one ref per card instance.
- React's batching of state updates: each event is applied to the latest state, which is what the functional updaters in the source guarantee.
