/** The session state of app.py: the favourites list, the last successful
    lookup, and the three interactions that touch them (a search in the
    single-city tab, "Add to Favorites", and the favourites tab with its
    "Remove" buttons). Rendering is not modelled; what the user typed or
    clicked and what the provider answers are parameters. */
module App {
  import opened Optional
  import opened PyJson
  import opened WeatherApi
  import opened Favorites

  /** What pressing "Add to Favorites" leads to: no button is offered before
      a first successful search; otherwise the name is saved, or a warning
      says it is already a favourite. */
  datatype AddOutcome = NoButton | Saved(city: Json) | AlreadyFavorite(city: Json)

  /** How a run of the favourites tab ends: every favourite was listed, the
      list was changed by a "Remove" button and the script reruns, or a lookup
      raised an exception that stops the script. */
  datatype TabEnd = Listed | Removed(fav: Json) | Crashed(exception: PyException)

  /** The favourites tab on the list `favs`, as a value: the cards shown (one
      per favourite whose lookup returned a record, in list order) and how the
      run ends. `clicked` is the favourite whose "Remove" button was pressed. */
  function Panel(cfg: Config, send: Request -> Response, favs: seq<Json>, clicked: Option<Json>)
    : (seq<Lookup>, TabEnd)
  {
    if favs == [] then ([], Listed)
    else
      var w := GetWeather(cfg, favs[0], send);
      if w.Uncaught? then ([], Crashed(w.exception))
      else if w.Record? && clicked == Some(favs[0]) then ([w], Removed(favs[0]))
      else
        var rest := Panel(cfg, send, favs[1..], clicked);
        (if w.Record? then [w] + rest.0 else rest.0, rest.1)
  }

  /** One step of the tab: the first favourite's outcome followed by the
      rest of the list. */
  lemma PanelStep(cfg: Config, send: Request -> Response, favs: seq<Json>, clicked: Option<Json>)
    requires favs != []
    ensures var w := GetWeather(cfg, favs[0], send);
      var rest := Panel(cfg, send, favs[1..], clicked);
      Panel(cfg, send, favs, clicked) ==
        if w.Uncaught? then ([], Crashed(w.exception))
        else if w.Record? && clicked == Some(favs[0]) then ([w], Removed(favs[0]))
        else (if w.Record? then [w] + rest.0 else rest.0, rest.1)
  {
  }

  /** One iteration of the tab's loop: with the cards of the first `i`
      favourites shown, the `i`-th favourite's outcome either ends the run or
      adds its card and leaves the rest of the list. */
  lemma TabStep(cfg: Config, send: Request -> Response, copy: seq<Json>, i: nat,
                cards: seq<Lookup>, clicked: Option<Json>)
    requires i < |copy|
    requires Panel(cfg, send, copy, clicked) ==
             (cards + Panel(cfg, send, copy[i..], clicked).0,
              Panel(cfg, send, copy[i..], clicked).1)
    ensures var w := GetWeather(cfg, copy[i], send);
      if w.Uncaught? then Panel(cfg, send, copy, clicked) == (cards, Crashed(w.exception))
      else if w.Record? && clicked == Some(copy[i]) then
        Panel(cfg, send, copy, clicked) == (cards + [w], Removed(copy[i]))
      else
        var shown := if w.Record? then cards + [w] else cards;
        Panel(cfg, send, copy, clicked) ==
          (shown + Panel(cfg, send, copy[i + 1..], clicked).0,
           Panel(cfg, send, copy[i + 1..], clicked).1)
  {
    assert copy[i..][1..] == copy[i + 1..];
    PanelStep(cfg, send, copy[i..], clicked);
    assert cards + [] == cards;
    var w := GetWeather(cfg, copy[i], send);
    var rest := Panel(cfg, send, copy[i + 1..], clicked);
    assert cards + ([w] + rest.0) == cards + [w] + rest.0;
  }

  /** Every card is a record; a favourite with an error has no card and so
      no "Remove" button; the only name ever removed is the one clicked, it is
      in the list, its lookup succeeded, and no lookup before it raised. */
  lemma {:induction false} PanelFacts(cfg: Config, send: Request -> Response,
                                      favs: seq<Json>, clicked: Option<Json>)
    ensures var (cards, end) := Panel(cfg, send, favs, clicked);
      && |cards| <= |favs|
      && (forall k :: 0 <= k < |cards| ==> cards[k].Record?)
      && (end.Removed? ==>
            && clicked == Some(end.fav)
            && end.fav in favs
            && GetWeather(cfg, end.fav, send).Record?
            && forall j :: 0 <= j < FirstIndex(favs, end.fav) ==>
                 !GetWeather(cfg, favs[j], send).Uncaught?)
  {
    if favs != [] {
      PanelFacts(cfg, send, favs[1..], clicked);
      var end := Panel(cfg, send, favs, clicked).1;
      if end.Removed? && favs[0] != end.fav {
        assert forall j :: 0 <= j < FirstIndex(favs[1..], end.fav) ==> favs[1..][j] == favs[j + 1];
      }
    }
  }

  /** A run stops with an exception only when some favourite's lookup
      raised exactly that exception, and every lookup before it returned. */
  lemma {:induction false} PanelCrashes(cfg: Config, send: Request -> Response,
                                        favs: seq<Json>, clicked: Option<Json>)
    ensures Panel(cfg, send, favs, clicked).1.Crashed? ==>
      exists k :: 0 <= k < |favs|
        && GetWeather(cfg, favs[k], send) == Uncaught(Panel(cfg, send, favs, clicked).1.exception)
        && forall j :: 0 <= j < k ==> !GetWeather(cfg, favs[j], send).Uncaught?
  {
    if favs != [] {
      PanelCrashes(cfg, send, favs[1..], clicked);
      var end := Panel(cfg, send, favs, clicked).1;
      if end.Crashed? && !GetWeather(cfg, favs[0], send).Uncaught? {
        var k :| 0 <= k < |favs[1..]|
          && GetWeather(cfg, favs[1..][k], send) == Uncaught(end.exception)
          && forall j :: 0 <= j < k ==> !GetWeather(cfg, favs[1..][j], send).Uncaught?;
        assert favs[1..][k] == favs[k + 1];
        assert forall j :: 1 <= j < k + 1 ==> favs[j] == favs[1..][j - 1];
      }
    }
  }

  /** A run that lists every favourite met no lookup that raised: a raising
      lookup reached before any removal ends the run with its exception. */
  lemma {:induction false} PanelListedNoCrash(cfg: Config, send: Request -> Response,
                                              favs: seq<Json>, clicked: Option<Json>)
    ensures Panel(cfg, send, favs, clicked).1 == Listed ==>
      forall k :: 0 <= k < |favs| ==> !GetWeather(cfg, favs[k], send).Uncaught?
  {
    if favs != [] {
      PanelListedNoCrash(cfg, send, favs[1..], clicked);
      assert forall k :: 1 <= k < |favs| ==> favs[k] == favs[1..][k - 1];
    }
  }

  /** The records among the lookups of `favs`, in list order. */
  function RecordLookups(cfg: Config, send: Request -> Response, favs: seq<Json>): seq<Lookup>
  {
    if favs == [] then []
    else
      var w := GetWeather(cfg, favs[0], send);
      (if w.Record? then [w] else []) + RecordLookups(cfg, send, favs[1..])
  }

  /** A run that lists every favourite shows exactly the record lookups, in
      list order. */
  lemma {:induction false} PanelListedCards(cfg: Config, send: Request -> Response,
                                            favs: seq<Json>, clicked: Option<Json>)
    ensures Panel(cfg, send, favs, clicked).1 == Listed ==>
      Panel(cfg, send, favs, clicked).0 == RecordLookups(cfg, send, favs)
  {
    if favs != [] {
      PanelListedCards(cfg, send, favs[1..], clicked);
    }
  }

  /** The converse of `PanelFacts`: a clicked favourite whose lookup returns
      a record, reached without an earlier lookup raising, is removed. */
  lemma {:induction false} PanelRemovesClicked(cfg: Config, send: Request -> Response,
                                               favs: seq<Json>, x: Json)
    requires x in favs
    requires GetWeather(cfg, x, send).Record?
    requires forall j :: 0 <= j < FirstIndex(favs, x) ==> !GetWeather(cfg, favs[j], send).Uncaught?
    ensures Panel(cfg, send, favs, Some(x)).1 == Removed(x)
  {
    if favs[0] != x {
      assert forall j :: 0 <= j < FirstIndex(favs[1..], x) ==> favs[1..][j] == favs[j + 1];
      PanelRemovesClicked(cfg, send, favs[1..], x);
    }
  }

  /** A run that lists every favourite shows a card for each one whose
      lookup returns a record. */
  lemma {:induction false} PanelListsRecords(cfg: Config, send: Request -> Response,
                                             favs: seq<Json>, clicked: Option<Json>)
    ensures Panel(cfg, send, favs, clicked).1 == Listed ==>
      forall k :: 0 <= k < |favs| && GetWeather(cfg, favs[k], send).Record? ==>
        GetWeather(cfg, favs[k], send) in Panel(cfg, send, favs, clicked).0
  {
    if favs != [] {
      PanelListsRecords(cfg, send, favs[1..], clicked);
      assert forall k :: 1 <= k < |favs| ==> favs[k] == favs[1..][k - 1];
    }
  }

  /** When no button was pressed the tab only reads: it never removes. */
  lemma {:induction false} PanelWithoutClick(cfg: Config, send: Request -> Response, favs: seq<Json>)
    ensures !Panel(cfg, send, favs, None).1.Removed?
  {
    if favs != [] {
      PanelWithoutClick(cfg, send, favs[1..]);
    }
  }

  class Session {
    /** `st.session_state["favorites"]`. */
    var favorites: seq<Json>
    /** `st.session_state["last_weather"]`, absent until a search succeeds. */
    var lastWeather: Option<Lookup>
    /** `favorites.json`. */
    const store: Store<Json>
    /** `API_KEY` and `BASE_URL`. */
    const cfg: Config

    /** Only a record is ever kept as the last lookup. */
    ghost predicate Valid()
      reads this
    {
      lastWeather.Some? ==> lastWeather.value.Record?
    }

    /** The first run of a session loads the stored favourites, or starts
        from the empty list when nothing is stored. */
    constructor Start(store: Store<Json>, cfg: Config)
      ensures Valid()
      ensures this.store == store && this.cfg == cfg
      ensures store.file.None? ==> favorites == []
      ensures store.file.Some? ==> favorites == store.file.value
      ensures lastWeather == None
    {
      var loaded := store.Load();
      this.store := store;
      this.cfg := cfg;
      favorites := loaded;
      lastWeather := None;
    }

    /** "Get Weather" with the text `city`: nothing happens for an empty
        text; otherwise the lookup is made, and its result is kept as the
        last lookup only when it is a record. */
    method Search(city: string, send: Request -> Response) returns (shown: Option<Lookup>)
      requires Valid()
      modifies this`lastWeather
      ensures Valid()
      ensures city == "" ==> shown == None
      ensures city != "" ==> shown == Some(GetWeather(cfg, JStr(city), send))
      ensures lastWeather ==
              (if shown.Some? && shown.value.Record? then shown else old(lastWeather))
    {
      shown := None;
      if city != "" {
        var weather := GetWeather(cfg, JStr(city), send);
        shown := Some(weather);
        if weather.Record? {
          lastWeather := Some(weather);
        }
      }
    }

    /** "Add to Favorites": the name saved is the city of the last record,
        the name the provider resolved, not the text searched for. It is
        appended and the whole list saved only when absent. */
    method AddToFavorites() returns (outcome: AddOutcome)
      requires Valid()
      modifies this`favorites, store
      ensures Valid()
      ensures old(lastWeather).None? ==>
                outcome == NoButton && favorites == old(favorites)
                && store.file == old(store.file)
      ensures old(lastWeather).Some? ==>
                var city := old(lastWeather).value.city;
                && favorites == AddIfAbsent(old(favorites), city)
                && (outcome == if city in old(favorites) then AlreadyFavorite(city) else Saved(city))
                && store.file == (if outcome.Saved? then Some(favorites) else old(store.file))
      ensures NoDup(old(favorites)) ==> NoDup(favorites)
    {
      if lastWeather.None? {
        outcome := NoButton;
        return;
      }
      var city := lastWeather.value.city;
      if city !in favorites {
        favorites := favorites + [city];
        store.Save(favorites);
        outcome := Saved(city);
      } else {
        outcome := AlreadyFavorite(city);
      }
      if NoDup(old(favorites)) {
        AddKeepsNoDup(old(favorites), city);
      }
    }

    /** `favorites.remove(fav)` followed by a save. When `fav` is not in the
        list, `list.remove` raises ValueError before anything changes or is
        saved; that is `found == false`. */
    method RemoveFavorite(fav: Json) returns (found: bool)
      requires Valid()
      modifies this`favorites, store
      ensures Valid()
      ensures found == (fav in old(favorites))
      ensures favorites == (if found then RemoveFirst(old(favorites), fav) else old(favorites))
      ensures store.file == (if found then Some(favorites) else old(store.file))
      ensures found ==> |favorites| == |old(favorites)| - 1
      ensures NoDup(old(favorites)) ==> NoDup(favorites) && fav !in favorites
    {
      found := fav in favorites;
      if found {
        RemoveFirstMultiset(favorites, fav);
        if NoDup(favorites) {
          RemoveKeepsNoDup(favorites, fav);
        }
        favorites := RemoveFirst(favorites, fav);
        store.Save(favorites);
      }
    }

    /** One run of the favourites tab: it walks a copy of the list, looks up
        each favourite, shows a card for each record, and when the clicked
        favourite's "Remove" button is reached removes it from the live list,
        saves, and stops for the rerun. */
    method FavoritesTab(send: Request -> Response, clicked: Option<Json>)
      returns (cards: seq<Lookup>, end: TabEnd)
      requires Valid()
      modifies this`favorites, store
      ensures Valid()
      ensures (cards, end) == Panel(cfg, send, old(favorites), clicked)
      ensures end.Removed? ==>
                favorites == RemoveFirst(old(favorites), end.fav)
                && store.file == Some(favorites)
      ensures !end.Removed? ==> favorites == old(favorites) && store.file == old(store.file)
      ensures NoDup(old(favorites)) ==> NoDup(favorites)
    {
      var copy := favorites;
      cards := [];
      var i := 0;
      assert copy[0..] == copy;
      assert cards + Panel(cfg, send, copy, clicked).0 == Panel(cfg, send, copy, clicked).0;
      while i < |copy|
        invariant 0 <= i <= |copy|
        invariant favorites == copy && store.file == old(store.file)
        invariant Panel(cfg, send, copy, clicked) ==
                  (cards + Panel(cfg, send, copy[i..], clicked).0,
                   Panel(cfg, send, copy[i..], clicked).1)
      {
        var fav := copy[i];
        var weather := GetWeather(cfg, fav, send);
        TabStep(cfg, send, copy, i, cards, clicked);
        if weather.Uncaught? {
          end := Crashed(weather.exception);
          return;
        }
        if weather.Record? {
          cards := cards + [weather];
          if clicked == Some(fav) {
            var found := RemoveFavorite(fav);
            end := Removed(fav);
            return;
          }
        }
        i := i + 1;
      }
      assert copy[i..] == [];
      assert cards + [] == cards;
      end := Listed;
    }
  }
}
