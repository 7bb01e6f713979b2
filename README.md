# Weather app: lookup normalisation and favourites

This project models the two pieces of logic in a small Streamlit weather app.

1. **The lookup client `get_weather`** (`utils/weather_api.py`). It builds a
   query for a city and sends one GET request to the weather provider. It then
   turns the provider's answer into one of two dictionaries. The first is a
   four-field record (`city`, `temperature`, `humidity`, `condition`). The
   second is `{"error": message}`.
2. **The favourites list** that the app keeps in `st.session_state["favorites"]`
   and in `favorites.json` (`app.py`). It is an ordered list of city names. A
   name is appended only when it is absent. A name is removed with Python's
   `list.remove`. After each change the whole list is saved over the previous
   file.

Files and modules:

- `option.dfy`, module `Optional`: the `Option` datatype.
- `title.dfy`, module `TitleCase`: Python's `str.title()` over ASCII. It is a
  recursive function (`Title`), with a separate pointwise rule as reference
  (`TitleCharAt`). Lemmas prove that the two agree, that length is kept, that
  the function is idempotent, and the worked examples.
- `json.dfy`, module `PyJson`: the decoded JSON body as a `Json` datatype. It
  also holds the four Python operations the client applies to that body:
  `v[key]`, `v[0]`, `v.get(key, default)` and `v.title()`. Each one either
  gives a value or raises the exception Python would raise (`Eval`).
- `weather.dfy`, module `WeatherApi`: the query (`QueryRequest`) and the
  decision on the provider's answer (`Normalise`). `GetWeather` puts the two
  together.
  - The HTTP call is the function parameter `send: Request -> Response`.
  - `API_KEY` and `BASE_URL` from the environment are the parameter `cfg`. A
    missing value is `None` (`JNull`).
  - A case the source does not catch is the third outcome `Uncaught`. Examples
    are a status-200 body that lacks `name`, or whose `weather` list is empty.
- `favorites.dfy`, module `Favorites`: the list operations as functions on
  sequences (`AddIfAbsent`, `RemoveFirst`), with their lemmas. It also holds the
  store class `Store` (`load_favorites` and `save_favorites`).
- `app.dfy`, module `App`: the class `Session`, which stands for
  `st.session_state`. It has the favourites list, the last successful lookup,
  the store and the configuration. Its methods are the interactions that change
  them: a search, "Add to Favorites", and a run of the favourites tab with its
  "Remove" buttons.

The docstring of `get_weather` (`utils/weather_api.py:32-45`) promises a
dictionary in every case. The code does not keep that promise, and the model
follows the code:

- Only `RequestException` and `Timeout` are caught (`utils/weather_api.py:70`).
  A malformed success body raises `KeyError`, `IndexError`, `TypeError` or
  `AttributeError` out of `get_weather`. A failure body that is not an object
  raises `AttributeError`. The model returns `Uncaught` for these.
- The error message is whatever value the body's `message` field holds. The
  code does not require it to be a string (`utils/weather_api.py:68`), so
  `Error` carries a `Json` value.
- The record's `city` is copied unconverted from the body, so the favourites
  list holds `Json` values. In practice they are strings.

A consequence visible in `App.PanelFacts`: a favourite gets a "Remove" button
only when its lookup returns a record. So a favourite whose lookup fails cannot
be removed from the favourites tab.

## Model

| member | source | states |
|---|---|---|
| `TitleCase.TitleAt` | utils/weather_api.py:64 | `Title(s)[i]` follows the pointwise rule: a letter at the start or after a non-letter is upper-cased, a letter after a letter is lower-cased, and anything else is unchanged |
| `TitleCase.TitleFromAt` | utils/weather_api.py:64 | the same rule for title-casing that starts after a letter or not; the result has the input's length |
| `TitleCase.TitleLength` | utils/weather_api.py:64 | title-casing keeps the length of the string |
| `TitleCase.TitleKeepsLetters` | utils/weather_api.py:64 | title-casing only changes the case of letters: the letters stay at the same positions and agree up to case, and non-letters are unchanged |
| `TitleCase.TitleIdempotent` | utils/weather_api.py:64 | `Title(Title(s)) == Title(s)` |
| `TitleCase.TitleMatches` | utils/weather_api.py:64 | a string that follows the pointwise rule at every position is the title-cased string |
| `TitleCase.TitleClearSky` | utils/weather_api.py:39 | "clear sky" becomes "Clear Sky", the documented example |
| `TitleCase.TitleLightRain` | utils/weather_api.py:64 | "light rain" becomes "Light Rain" |
| `TitleCase.TitleApostrophe` | utils/weather_api.py:64 | "they're" becomes "They'Re": an apostrophe is not a letter |
| `TitleCase.TitleFrom` | utils/weather_api.py:64 | the recursive title-casing that `str.title()` performs, carrying whether the previous character was a letter; specified by `TitleFromAt` |
| `TitleCase.Title` | utils/weather_api.py:64 | `.title()` on the description, over ASCII; specified by `TitleAt`, `TitleMatches`, `TitleLength` and `TitleIdempotent` |
| `PyJson.Member` | utils/weather_api.py:61-64 | `v[key]` gives the entry exactly when `v` is a dict holding `key`; otherwise it raises KeyError for a dict and TypeError for anything else |
| `PyJson.First` | utils/weather_api.py:64 | `v[0]` gives the first element of a non-empty list or string; it raises IndexError when the list or string is empty, KeyError for a dict and TypeError otherwise |
| `PyJson.Get` | utils/weather_api.py:68 | `v.get(key, default)` gives the entry or the default for a dict, and raises AttributeError for anything else |
| `PyJson.Title` | utils/weather_api.py:64 | `v.title()` title-cases a string and raises AttributeError for anything else |
| `WeatherApi.FromEnv` | utils/weather_api.py:21-22 | a missing environment value is `None`; a present one is passed through as a string |
| `WeatherApi.QueryRequestParams` | utils/weather_api.py:47-55 | the request has exactly the parameters `q`, `appid` and `units`, in that order, holding the city unchanged, the credential (None when missing) and `"metric"`; it goes to `BASE_URL` with timeout 5 |
| `WeatherApi.QueryParams` | utils/weather_api.py:47-51 | the `params` dictionary in build order; specified by `QueryRequestParams` |
| `WeatherApi.QueryRequest` | utils/weather_api.py:47-55 | the GET request to `BASE_URL` with those parameters and timeout 5; specified by `QueryRequestParams` |
| `WeatherApi.SuccessRecord` | utils/weather_api.py:59-65 | the success dictionary, field by field in Python's evaluation order, raising the first exception met; specified by `SuccessResponse` and `SuccessExceptions` |
| `WeatherApi.FailureMessage` | utils/weather_api.py:68 | `{"error": data.get("message", "Unable to fetch weather.")}`; specified by `FailureResponse` |
| `WeatherApi.Normalise` | utils/weather_api.py:53-72 | the decision on the provider's answer (transport failure, status 200, other status); specified by `SuccessResponse`, `FailureResponse`, `TransportResponse`, `StatusDecides` and `ResultShapes` |
| `WeatherApi.GetWeather` | utils/weather_api.py:25-72 | `get_weather(city)`: the answer to `QueryRequest`, normalised; specified by `QueryRequestParams` together with the lemmas on `Normalise` |
| `WeatherApi.SuccessResponse` | utils/weather_api.py:59-65 | a status-200 response with a well-formed body gives the record whose `city`, `temperature` and `humidity` are the body's `name`, `main.temp` and `main.humidity` unconverted, and whose `condition` is the title-cased `weather[0].description`; a status-200 body raises exactly when it is not well-formed |
| `WeatherApi.SuccessExceptions` | utils/weather_api.py:59-65 | the first exception a bad status-200 body raises: TypeError for a non-object body, KeyError for a missing `name`, IndexError for an empty `weather` list |
| `WeatherApi.FailureResponse` | utils/weather_api.py:68 | any status other than 200 gives `Error(m)`, where `m` is the body's `message` when present and else exactly "Unable to fetch weather."; a body that is not an object raises AttributeError |
| `WeatherApi.TransportResponse` | utils/weather_api.py:70-72 | a request exception gives an error carrying its message, never a record |
| `WeatherApi.StatusDecides` | utils/weather_api.py:59-68 | status 200 never gives an error and any other status never gives a record |
| `WeatherApi.ResultShapes` | utils/weather_api.py:59-72 | a returned dictionary either has exactly the keys `city`, `temperature`, `humidity` and `condition` and no `error`, or exactly the key `error`; it has `error` exactly when the lookup failed |
| `WeatherApi.LondonScenario` | utils/weather_api.py:59-65 | the London body with "light rain" gives `Record("London", 15.2, 72, "Light Rain")` |
| `WeatherApi.CityNotFoundScenario` | utils/weather_api.py:68 | a 404 with message "city not found" gives that message; a 404 without a message gives the fallback text |
| `Favorites.FirstIndex` | app.py:158 | the position that `list.remove` deletes: it holds the name, and no earlier position does |
| `Favorites.AddIfAbsent` | app.py:89-90 | append the name only when absent; specified by `AddIfAbsentSpec`, `AddKeepsNoDup` and `AddIdempotent` |
| `Favorites.RemoveFirst` | app.py:158 | `list.remove`: delete the first occurrence; specified by `RemoveFirstSplices`, `RemoveFirstMultiset`, `RemoveKeepsNoDup` and `AddThenRemove` |
| `Favorites.AddIfAbsentSpec` | app.py:89-94 | adding a present name leaves the list unchanged; adding an absent one appends it at the end and keeps every earlier name at its position |
| `Favorites.AddKeepsNoDup` | app.py:89-90 | a list without duplicates has none after an add |
| `Favorites.AddIdempotent` | app.py:89-94 | adding the same name twice equals adding it once |
| `Favorites.RemoveFirstSplices` | app.py:158 | removing a present name deletes exactly its first occurrence; what comes before and after it stays in order |
| `Favorites.RemoveFirstMultiset` | app.py:158 | removing takes away one occurrence of the name and nothing else |
| `Favorites.RemoveKeepsNoDup` | app.py:158 | in a list without duplicates, removing a name leaves no duplicates and no copy of the name |
| `Favorites.AddThenRemove` | app.py:158 | removing a name that was just added while absent gives back the original list |
| `Favorites.Store.Load` | app.py:32-41 | the stored list, or `[]` when nothing is stored |
| `Favorites.Store.Save` | app.py:44-51 | the store then holds exactly the saved list, replacing what it held before |
| `Favorites.SaveThenLoad` | app.py:38-51 | after a save the store holds exactly the saved list, and loading gives it back |
| `App.PanelFacts` | app.py:132-165 | every card in the favourites tab is a record; the only name ever removed is the clicked one, which is in the list, whose lookup returned a record, and before whose first occurrence no lookup raised |
| `App.PanelCrashes` | app.py:135-137 | a run stops with an exception only when some favourite's lookup raised that very exception and no lookup before it raised |
| `App.PanelListedNoCrash` | app.py:135-137 | the converse of `PanelCrashes`: a run that lists every favourite met no raising lookup, so a raising lookup reached before any removal stops the run |
| `App.PanelListedCards` | app.py:135-153 | a run that lists every favourite shows exactly the record lookups of the list, in list order (`RecordLookups`) |
| `App.TabStep` | app.py:135-165 | one iteration over the copy of the list: the current favourite's lookup ends the run with an exception, ends it with its removal when its button was pressed, or adds its card (if a record) and goes on with the rest |
| `App.Panel` | app.py:132-165 | one run of the favourites tab as a value: the cards shown and how the run ends; specified by `PanelFacts`, `PanelCrashes`, `PanelListedNoCrash`, `PanelRemovesClicked`, `PanelListsRecords`, `PanelListedCards` and `PanelWithoutClick` |
| `App.PanelRemovesClicked` | app.py:135-159 | the converse of `PanelFacts`: a clicked favourite whose lookup returns a record, reached with no earlier lookup raising, is removed |
| `App.PanelListsRecords` | app.py:135-153 | a run that lists every favourite shows a card for each favourite whose lookup returns a record |
| `App.PanelWithoutClick` | app.py:132-165 | a run of the favourites tab with no button pressed removes nothing |
| `App.Session.Start` | app.py:55-56 | a session starts with the stored favourites, or with `[]` when nothing is stored, and with no last lookup |
| `App.Session.Search` | app.py:63-72 | an empty query does nothing; otherwise the result is the lookup of that text, and the last lookup is replaced only by a record |
| `App.Session.AddToFavorites` | app.py:86-94 | with no last lookup there is nothing to press; otherwise the favourites become `AddIfAbsent(old, city)`, where `city` is the provider's resolved name; the list is saved only when the name was new; the list stays free of duplicates |
| `App.Session.RemoveFavorite` | app.py:157-159 | a present name is removed by its first occurrence and the new list is saved; an absent one raises ValueError, and nothing changes or is saved |
| `App.Session.FavoritesTab` | app.py:130-165 | a run of the tab walks a copy of the list and shows the cards of `Panel`; if the clicked favourite is reached it is removed from the live list and the list is saved; otherwise the list and the store stay as they were; the list stays free of duplicates |

## Left out

- The Streamlit page itself is not modelled: configuration, CSS, tabs, columns, markdown cards, messages and the `dummy` rerun counter. Pressing a button or typing is a parameter of the session methods.
- The compare tab (`app.py:106-127`) is left out. It is two independent lookups followed by rendering.
- The network call is not modelled. `requests.get` with its timeout becomes the parameter `send`, and its answer is taken as given. Real providers may answer the same request differently over time; `send` is one fixed answer per request.
- The JSON decoding of the response is not modelled. The body comes already decoded. A body that does not decode raises `requests.exceptions.JSONDecodeError`, which is a `RequestException` in the requests versions that define it; it is folded into `TransportFailure`.
- How `requests` encodes the query is not modelled. It silently drops a `None` parameter, such as a missing `API_KEY`.
- Reading the environment (`load_dotenv`, `os.getenv`) is not modelled. Its two values come in as `Config`.
- Real file I/O and JSON serialisation of `favorites.json` are not modelled. The store is an `Option` of a list. A file that does not decode raises in `json.load`. A file holding JSON that is not a list is loaded as it is: the favourites tab walks a string character by character, and most other values raise at the slice on app.py:132. Neither case is modelled.
- The store is not written atomically in the source, and a crashed write is not modelled.
- Temperature and humidity are whatever `Json` value the body holds, copied unconverted; a number is an opaque `JNum(real)`. The source does no arithmetic on them, and float rounding is not modelled. A JSON number is one kind of value: the model does not tell a Python `int` from a `float`, so `72` and `72.0` are the same `JNum(72.0)`.
- `TitleCase.Title`: only ASCII letters count as cased. Python's Unicode case rules are not modelled: non-ASCII characters are treated as non-letters and left unchanged.
- App.Session.AddToFavorites: name comparison is structural equality of `Json` values. Because numbers merge `int` and `float`, `1` and `1.0` are equal here as in Python. Python's `==` also equates `True` with `1` and `False` with `0`, and this is not modelled.
- App.Panel: Streamlit's widget keys are not modelled. Each "Remove" button has the key `remove_{fav}`, and Streamlit raises a duplicate-widget-key error when a second button with the same key is drawn. A list that holds one name twice, or two different values with the same `str()` (such as the string `"1"` and the integer `1`), therefore makes the source stop at the second such button, while `Panel` shows both cards and goes on. The app itself only ever adds an absent name, so every list it writes is free of duplicates (`AddKeepsNoDup`, `RemoveKeepsNoDup`, `Session.FavoritesTab`); only a hand-edited `favorites.json` loaded by `Session.Start` can hold such a list. Python's `str()` of a value is not modelled.
- `st.session_state` keeps the favourites between reruns. A rerun is not itself modelled: each session method stands for one script run's effect.
