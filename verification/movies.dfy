/**
  The popular-movies screen (components/movies.tsx): how each catalog record becomes a
  card, which cards show as favourites, and how card events change the favourites list.
  Fetching the catalog is not modelled; the records arrive as a parameter.
 */
module Movies {
  import opened Wrappers
  import Favorites
  import MovieCard

  /** Prefix of every poster URL: the catalog's 500-pixel-wide image host. */
  const PosterBase: string := "https://image.tmdb.org/t/p/w500"

  /**
    The fields of a catalog record the screen reads. `None` is an explicit JSON `null`
    poster path, the only form of absent poster the catalog sends.
   */
  datatype ApiMovie = ApiMovie(id: int, title: string, overview: string, posterPath: Option<string>)

  /** The record a card is given. */
  datatype CardMovie = CardMovie(id: int, title: string, description: string, image: string)

  /** How a template literal renders the poster path: a JSON `null` becomes the text "null". */
  function PosterText(posterPath: Option<string>): string
  {
    match posterPath
    case Some(p) => p
    case None => "null"
  }

  /** The card record built for each catalog record. */
  function ToCard(m: ApiMovie): (c: CardMovie)
    ensures c.id == m.id && c.title == m.title && c.description == m.overview
    ensures |c.image| == |PosterBase| + |PosterText(m.posterPath)|
    ensures c.image[..|PosterBase|] == PosterBase
    ensures c.image[|PosterBase|..] == PosterText(m.posterPath)
  {
    CardMovie(m.id, m.title, m.overview, PosterBase + PosterText(m.posterPath))
  }

  /** The poster path can be read back from a card whose record had one. */
  lemma PosterPathRecoverable(m: ApiMovie)
    requires m.posterPath.Some?
    ensures ToCard(m).image[|PosterBase|..] == m.posterPath.value
  {
  }

  /** What one rendered card shows. */
  datatype CardView = CardView(movie: CardMovie, isFavorite: bool)

  /** The rendered list: one card per record, in catalog order. */
  function Render(movies: seq<ApiMovie>, favs: seq<int>): (r: seq<CardView>)
    ensures |r| == |movies|
    ensures forall i :: 0 <= i < |r| ==> r[i].movie == ToCard(movies[i])
    ensures forall i :: 0 <= i < |r| ==> (r[i].isFavorite <==> movies[i].id in favs)
  {
    seq(|movies|, i requires 0 <= i < |movies| =>
      CardView(ToCard(movies[i]), Favorites.IsFavorite(favs, movies[i].id)))
  }

  // ---------------------------------------------------------------------------
  // Card events on the screen

  /**
    The screen's favourites and each mounted card's tap memory, keyed like the cards by
    movie id. This matches one ref per card instance only when catalog ids are unique.
   */
  datatype Screen = Screen(favorites: seq<int>, cards: map<int, MovieCard.TapState>)

  /** A freshly loaded screen. */
  const Loaded := Screen([], map[])

  /** What a user can do on a card. */
  datatype CardEvent = DoubleTap(id: int, now: int) | FavoritePress(id: int)

  /** The tap memory of a card; a card that never received a tap event starts from `Mounted`. */
  function CardState(s: Screen, id: int): MovieCard.TapState
  {
    if id in s.cards then s.cards[id] else MovieCard.Mounted
  }

  /** Whether the card's handler calls `onToggleFavorite` for this event. */
  predicate Fires(s: Screen, e: CardEvent)
  {
    match e
    case DoubleTap(id, now) => MovieCard.IsDoubleTap(CardState(s, id).lastTap, now)
    case FavoritePress(_) => true
  }

  /** Apply one card event: the card's handler runs, and its `onToggleFavorite` call toggles that card's id. */
  function Apply(s: Screen, e: CardEvent): (r: Screen)
    ensures r.favorites == if Fires(s, e) then Favorites.Toggle(s.favorites, e.id) else s.favorites
    ensures Favorites.IsFavorite(r.favorites, e.id) <==> (Favorites.IsFavorite(s.favorites, e.id) != Fires(s, e))
    ensures forall other :: other != e.id ==> (other in r.favorites <==> other in s.favorites)
    ensures forall other :: other != e.id ==> CardState(r, other) == CardState(s, other)
    ensures e.DoubleTap? ==> CardState(r, e.id).lastTap == e.now
    ensures e.FavoritePress? ==> CardState(r, e.id) == CardState(s, e.id)
  {
    var o := match e
      case DoubleTap(id, now) => MovieCard.HandleDoubleTap(CardState(s, id), now)
      case FavoritePress(id) => MovieCard.HandleFavoritePress(CardState(s, id));
    var favs := if o.toggles == 1 then Favorites.Toggle(s.favorites, e.id) else s.favorites;
    Screen(favs, s.cards[e.id := o.next])
  }

  /** Apply a sequence of card events in order. */
  function ApplyAll(s: Screen, events: seq<CardEvent>): Screen
    decreases |events|
  {
    if |events| == 0 then s else ApplyAll(Apply(s, events[0]), events[1..])
  }

  /** Pressing the heart of a rendered card flips what that card shows, and no other card's flag. */
  lemma PressFlipsRenderedFavorite(movies: seq<ApiMovie>, s: Screen, i: int)
    requires 0 <= i < |movies|
    ensures Render(movies, Apply(s, FavoritePress(movies[i].id)).favorites)[i].isFavorite
        == !Render(movies, s.favorites)[i].isFavorite
    ensures forall j :: 0 <= j < |movies| && movies[j].id != movies[i].id ==>
      Render(movies, Apply(s, FavoritePress(movies[i].id)).favorites)[j].isFavorite
        == Render(movies, s.favorites)[j].isFavorite
  {
  }

  /**
    Three quick taps on a card that was never tapped, whose movie is not a favourite,
    fire twice (on the second and third tap), so the favourites list ends exactly as it began.
   */
  lemma TripleTapRestoresFavorites(s: Screen, id: int, t0: int, t1: int, t2: int)
    requires id !in s.cards && id !in s.favorites
    requires t0 != 0 && t1 != 0
    requires t1 - t0 < 300 && t2 - t1 < 300
    ensures ApplyAll(s, [DoubleTap(id, t0), DoubleTap(id, t1), DoubleTap(id, t2)]).favorites == s.favorites
    ensures CardState(ApplyAll(s, [DoubleTap(id, t0), DoubleTap(id, t1), DoubleTap(id, t2)]), id).lastTap == t2
  {
    var events := [DoubleTap(id, t0), DoubleTap(id, t1), DoubleTap(id, t2)];
    var s1 := Apply(s, events[0]);
    assert s1.favorites == s.favorites;
    var s2 := Apply(s1, events[1]);
    assert s2.favorites == Favorites.Toggle(s.favorites, id);
    var s3 := Apply(s2, events[2]);
    assert s3.favorites == Favorites.Toggle(Favorites.Toggle(s.favorites, id), id);
    Favorites.ToggleAbsentTwice(s.favorites, id);
    assert ApplyAll(s, events) == ApplyAll(s1, events[1..]);
    assert ApplyAll(s1, events[1..]) == ApplyAll(s2, events[2..]);
    assert ApplyAll(s2, events[2..]) == ApplyAll(s3, []);
  }

  /** Starting from a freshly loaded screen, or any duplicate-free list, no id is ever listed twice. */
  lemma {:induction false} EventsKeepNoDuplicates(s: Screen, events: seq<CardEvent>)
    requires Favorites.NoDuplicates(s.favorites)
    ensures Favorites.NoDuplicates(ApplyAll(s, events).favorites)
    decreases |events|
  {
    if |events| > 0 {
      var e := events[0];
      Favorites.ToggleNoDuplicates(s.favorites, e.id);
      EventsKeepNoDuplicates(Apply(s, e), events[1..]);
    }
  }
}
