# poketool core, modelled in Dafny

poketool is a console program for looking up Pokémon in the PokeAPI web
service. This project models the logic under its menus. It covers:

- the Levenshtein edit distance (`algorithms.py`);
- the ranking of spelling suggestions and the numbered menus (`menu.py`);
- the walk and rendering of evolution chains, and title-casing (`string_tools.py`);
- the search history and its file (`history.py`);
- the lazily built name-to-URL catalog cache and the lookups built on it (`pokeapi.py`);
- the resolution of a typed menu choice and the coloured message texts (`command_line_tools.py`).

Modules follow the source files: `Algorithms`, `StringTools`, `History`, `PokeApi`,
`CommandLineTools` and `Menu`. They rest on a few helper modules:

- `Wrappers`: Option, Result and the Python exceptions that can escape.
- `Ascii`: `lower`, `capitalize` and `strip` on ASCII text.
- `Slices`: the length `min(n, len(s))` of a slice `s[:n]`.
- `Decimal`: `str(n)` and `int(s)`.
- `Dicts`: insertion-ordered dicts with string keys.
- `Json`: decoded JSON, with truthiness, `x["k"]` and iteration.
- `Sorting`: Python's stable `sorted`.

The state the source keeps in module globals is held in classes:

- `History.HistoryStore` holds the history list and the content of `history.json`.
- `PokeApi.Client` holds the cache. It also keeps a ghost log of every request sent.

The web service is a function from requests to responses, passed to the
`PokeApi.Client` constructor. Keyboard input is a sequence of lines. Printed
output is a sequence of printed strings.

Three behaviours of the code that a reader might not expect:

- The in-memory history list is never truncated (`history.py:20`). Only the
  copy written to the file is cut to 10 entries (`history.py:25`).
- A failed bulk catalog fetch is not absorbed: `None` is subscripted and
  raises (`pokeapi.py:47-48`). The cache is left unset.
- After a failed bulk fetch the cache stays unset, so a later lookup by name
  retries the bulk fetch first (`pokeapi.py:60`). It raises again if the
  retried bulk fetch fails too; it never reports the name as absent.

## Model

| member | source | states |
|---|---|---|
| `Algorithms.LevenshteinDistance` | algorithms.py:1-34 | returns exactly the recursive edit distance `Lev(first, second)` for all inputs. The swapped call recurses at most once. Each row has `len(second)+1` entries and starts with `i+1`. `previous_row[j]` is the distance between the prefixes |
| `Algorithms.NextRow` | algorithms.py:19-31 | one outer pass turns the row of distances for the first i characters into the row for i+1. The new row starts with i+1 and entry k is the distance to the first k characters of the second string |
| `Algorithms.LevStep` | algorithms.py:24-28 | each matrix entry is the minimum of insertion, deletion and substitution from its three neighbours |
| `Algorithms.LevAgainstEmpty` | algorithms.py:13-15 | the distance to the empty string is the other string's length, either way round |
| `Algorithms.LevSymmetric` | algorithms.py:9-11 | `d(a, b) == d(b, a)`, which makes the argument swap harmless |
| `Algorithms.LevZeroIff` | algorithms.py:27-28 | the distance is 0 exactly when the strings are equal |
| `Algorithms.LevBounds` | algorithms.py:18-28 | the length difference is at most the distance, and the distance is at most the longer length |
| `Algorithms.LevAppendOne` | algorithms.py:25-28 | a string and that string plus one character are at distance 1 |
| `Algorithms.RowFollows` | algorithms.py:19-31 | a row computed from the previous row by the loop's recurrence (first entry i+1, then the minimum of the three neighbours) is the next row of distances |
| `Algorithms.CellFollows` | algorithms.py:24-28 | a value computed from the three neighbouring distances by the recurrence is the distance at that cell |
| `Algorithms.KittenSitting` | algorithms.py:1-34 | `levenshtein_distance("kitten", "sitting") == 3`, derived row by row from the recurrence |
| `StringTools.ExtractNames` | string_tools.py:10-15 | the `while current_pokemon` loop collects exactly `Lineage(chain_data)` |
| `StringTools.LineageFrom` | string_tools.py:12-15 | the number of names equals the length of the first-child path up to the first empty or missing node |
| `StringTools.LineageFollowsFirstChildren` | string_tools.py:11-15 | name k is the species name of the node reached by following `evolves_to[0]` k times from the root. The node after the last name is empty or missing |
| `StringTools.LineageEnds` | string_tools.py:11-19 | no names exactly when `chain` is missing or `{}`. The first name is the root's, and a missing `species` gives `""`. A root without children gives one name |
| `StringTools.BulbasaurLineage` | string_tools.py:10-15 | bulbasaur→ivysaur→venusaur gives those three names. A root alone gives `["bulbasaur"]` |
| `StringTools.FormatEvolutionChain` | string_tools.py:1-26 | the text is `Render(Lineage(chain_data), name_to_highlight)`: the fixed message for no names, otherwise the rendered names joined by `" -> "` |
| `StringTools.RenderShortLineages` | string_tools.py:18-26 | an empty lineage gives exactly "This Pokémon has no known evolutions.". One name gives that name rendered, with no separator |
| `StringTools.JoinSeparates` | string_tools.py:22-26 | the joined text is the first part, then each later part with `" -> "` in front, so n names give n-1 separators |
| `StringTools.JoinLength` | string_tools.py:22-26 | the joined length is the sum of the parts' lengths plus (n-1) separator lengths |
| `StringTools.HighlightExactlyWhenEqual` | string_tools.py:23-24 | for a name that does not itself start with the escape character, the name is wrapped in `\033[92m`…`\033[0m` exactly when it equals the highlight. Otherwise it is `name.capitalize()` alone |
| `StringTools.RenderHighlightExample` | string_tools.py:22-26 | `["bulbasaur","ivysaur"]` highlighted at "ivysaur" gives `Bulbasaur -> ` followed by the green-wrapped "Ivysaur" |
| `StringTools.RenderCapitalizedHighlightExample` | string_tools.py:22-26 | the capitalised highlight "Ivysaur" matches no raw name, so nothing is wrapped |
| `StringTools.SnakeCaseToTitleCase` | string_tools.py:28-33 | the result has the input's length and contains no `-` |
| `StringTools.SnakeCaseToTitleCaseSpec` | string_tools.py:28-33 | same length and no `-`. A hyphen becomes a space, and underscores and other non-letters stay. A letter is upper-cased when it is first or follows a non-letter, and lower-cased otherwise |
| `Ascii.Capitalize` | string_tools.py:24 | `capitalize()` keeps the length; its characters are given by `Ascii.CapitalizeShape` |
| `Ascii.ToUpper` | string_tools.py:24 | a lower-case ASCII letter becomes the upper-case letter 32 code points below it; any other character is unchanged |
| `Ascii.ToLower` | menu.py:60 | an upper-case ASCII letter becomes the lower-case letter 32 code points above it; any other character is unchanged |
| `Ascii.Lower` | menu.py:60 | `lower()` keeps the length, lower-cases each character in place, and leaves no upper-case letter |
| `Ascii.LowerIdempotent` | menu.py:60 | lower-casing twice is the same as lower-casing once |
| `Ascii.StripTrimmed` | menu.py:60 | text with no whitespace at either end is unchanged by `strip()` |
| `Ascii.CapitalizeShape` | string_tools.py:23-24 | character 0 of `capitalize()` is the input's upper-cased and every other character the input's lower-cased, so only a leading letter is upper case and non-letters are kept |
| `Ascii.Strip` | menu.py:60 | `strip()` is empty exactly for all-whitespace text. Otherwise it starts and ends with non-whitespace and is the slice between the leading and the trailing whitespace |
| `History.HistoryStore.constructor` | history.py:6 | the history starts empty, and the file is whatever is on disk |
| `History.HistoryStore.AddToHistoryFile` | history.py:8-25 | a name already in the list changes nothing and writes nothing. A new name is put in front, and the file is overwritten with the first 10 entries |
| `History.HistoryStore.LoadHistoryFile` | history.py:27-40 | the list becomes the file's list. A missing or undecodable file gives `[]` |
| `History.Persisted` | history.py:22-25 | the written list is the first min(10, n) entries of the in-memory list |
| `History.Recorded` | history.py:15-20 | the list grows by one exactly when the name is new, and afterwards contains the name |
| `History.RecordedShape` | history.py:15-20 | a repeat leaves the list unchanged. A new name is at index 0, with the old list after it, so the list's elements grow by that name alone |
| `History.RecordedDistinct` | history.py:16-20 | recording keeps the list free of duplicates |
| `History.RecordAllNew` | history.py:20 | distinct new names pile up newest first, and nothing is truncated in memory |
| `History.ElevenViews` | history.py:20-25 | eleven distinct views leave eleven names in memory. The file holds the newest ten, without the oldest |
| `History.RecordThenReload` | history.py:20-36 | recording a new name and reloading gives `([name] + old)[..min(10, len(old)+1)]`, which has at most 10 names |
| `PokeApi.FetchResult` | pokeapi.py:26-31 | `fetch` yields nothing for any status other than 200, and the decoded body for 200 |
| `PokeApi.Client.constructor` | pokeapi.py:10 | the cache starts as `None`, no request has been sent, and the cache invariant (each name bound once) holds |
| `PokeApi.Client.Fetch` | pokeapi.py:12-31 | one request is sent, and the result follows the status rule |
| `PokeApi.Client.FetchOrGetPokemonCache` | pokeapi.py:37-51 | a non-empty cache is returned unchanged, with no request. Otherwise exactly one bulk request is sent, and the cache is set to the built map. If the build raises, the cache is untouched and the exception propagates. A set cache always binds each name once |
| `PokeApi.EntriesSpec` | pokeapi.py:48 | the comprehension over the results succeeds exactly when every entry has a `name` and a `url`. It then yields one `(name, url)` pair per entry, in order |
| `PokeApi.BuildCache` | pokeapi.py:47-48 | a failed bulk fetch (`None`) raises TypeError. A body without `results` raises its KeyError, a non-iterable `results` raises TypeError, and a malformed entry raises that entry's error. When every step succeeds, the cache is the dict comprehension over the listed name/url pairs, and it binds each name once |
| `PokeApi.BuildCacheSpec` | pokeapi.py:47-48 | a failed bulk fetch (`None`) raises. Otherwise, for any iterable `results` (a list, or a dict, which yields its keys) whose entries are well formed, each listed name appears once, in first-appearance order, bound to its last entry's url |
| `PokeApi.BuildCacheRaisesOnBadEntry` | pokeapi.py:48 | a results entry without `name` or `url` makes the whole build raise |
| `PokeApi.UrlOf` | pokeapi.py:60-62 | an unknown name or a falsy url (such as `""`) gives no URL to fetch, and a non-empty string url is the URL fetched. A fetched URL is bound to the name. A truthy url that is not a string raises, and nothing else does |
| `PokeApi.Client.FetchOrGetPokemonByName` | pokeapi.py:53-65 | the cache is obtained as above. An unknown name or falsy url returns `None` with no entity request. Otherwise exactly one request for the url is sent, and its result is returned |
| `PokeApi.ChainUrl` | pokeapi.py:92-93 | the chain URL is obtained exactly when the species is a dict whose `evolution_chain` holds a string `url`, and it is that string. A non-dict species raises TypeError and a missing `evolution_chain` KeyError. When that subscript succeeds, a failing `["url"]` raises its own error (TypeError on a non-dict, KeyError('url') on a dict without it), and a non-string url raises InvalidUrl |
| `PokeApi.Client.FetchEvolutionChain` | pokeapi.py:82-94 | the species is requested first. If it gives nothing, the result is `None` with no second request. Otherwise exactly one request for the chain url is sent, and its result is returned |
| `PokeApi.CacheTwice` | pokeapi.py:45-51 | two calls in a row send one bulk request when the first build is non-empty. An empty or failed build counts as unset, so the second call sends another |
| `PokeApi.RequestUrls` | pokeapi.py:67-80 | the bulk request is `API_URL + "pokemon"` with `limit=2000`. The species request is `API_URL + "pokemon-species/" + str(id)` |
| `Dicts.Get` | pokeapi.py:60 | `get` finds a value exactly for a present key, and that value is bound to the key |
| `Dicts.PutSpec` | pokeapi.py:48 | assigning a key binds it, leaves other keys alone, and keeps an existing key at its position |
| `Dicts.FromPairsSound` | pokeapi.py:48 | a dict built from pairs has each key once, exactly the pairs' keys, each bound to its last value |
| `Dicts.DistinctPermutation` | menu.py:196 | reordering a list without repeats leaves it without repeats |
| `Json.Subscript` | pokeapi.py:48 | `x["k"]` succeeds exactly on a dict holding `k`. It raises KeyError on another dict and TypeError on anything else |
| `Json.Iterate` | pokeapi.py:48 | a list iterates its items, a dict its keys as strings in order, and a string its one-character strings. `None`, booleans and numbers raise TypeError |
| `Sorting.Sort` | menu.py:196 | `sorted` returns a permutation of its input |
| `Sorting.SortSorted` | menu.py:196 | the result is in nondecreasing key order |
| `Sorting.SortStable` | menu.py:196 | for every key, the elements with that key keep their input order |
| `Sorting.SortKeepsMinimalHead` | menu.py:196 | a first element with the minimal key stays first |
| `Sorting.SortedPrefix` | menu.py:196 | the first n elements of the sort come from the input and are in order. No element left out precedes the last one kept |
| `Menu.RankSuggestions` | menu.py:191-196 | an empty cache gives `None`. Otherwise the list has min(3, n) names |
| `Menu.SuggestionsSpec` | menu.py:185-196 | for a non-empty cache: min(3, n) suggestions, each a cached name, none twice, in nondecreasing distance. No left-out name is closer than the last suggestion. Ties follow cache order |
| `Menu.GetPokemonSuggestions` | menu.py:185-196 | obtains the cache as above, with the same requests and the same new cache. An empty cache returns `None`, and otherwise the ranked suggestions: min(3, n) distinct cached names in nondecreasing distance. A failing build raises and leaves the cache unchanged |
| `Menu.ClosestFirstKeyLeads` | menu.py:196 | when the first cached name is as close as any other, it is the top suggestion |
| `Menu.SuggestionExample` | menu.py:196 | with bulbasaur, charmander and squirtle cached, "bulbasaurr" suggests "bulbasaur" first |
| `Menu.NumberedOptions` | menu.py:41-45 | the options are one per name, labelled with the capitalised name, and then the back option `str(n + 1)` with the back label |
| `Menu.NumberedOptionKeys` | menu.py:41-45 | the history and suggestion menus have keys "1".."n" plus the back key "n+1", all distinct, and capitalised labels |
| `Menu.SelectedName` | menu.py:47-52 | an accepted choice selects Back exactly when it is the back key, and otherwise one of the listed names |
| `Decimal.NatToDecimal` | menu.py:42 | `str(n)` is a non-empty digit string that starts with `0` only for 0 |
| `Decimal.DecimalRoundTrip` | menu.py:52 | `int(str(n)) == n`, with `int` as `Decimal.DecimalValue` |
| `Decimal.DecimalInjective` | menu.py:41-42 | different numbers have different decimal forms, so the numbered keys never clash |
| `Menu.SelectingNumber` | menu.py:47-52 | choosing k ≤ n selects `names[k-1]`, and choosing n+1 selects Back |
| `Menu.MenuDefaults` | menu.py:83-87 | an empty line is rejected in the history menu and selects Back in the suggestion menu |
| `Menu.SuggestionMenu` | menu.py:70-79 | with no suggestions (`None`), building the menu raises TypeError, as `len(None)` does. A list of suggestions gives exactly the numbered menu `NumberedOptions` of those names, about which the key and selection lemmas are proved |
| `Menu.NormalizeSearchInput` | menu.py:60-63 | all-whitespace input is rejected. Otherwise the name is the stripped line lower-cased character by character: non-empty, without surrounding whitespace and without upper-case letters |
| `Menu.SortedMoves` | menu.py:178 | `sorted` keeps every move, with its multiplicity |
| `Menu.SortedMovesSpec` | menu.py:178 | the moves are a permutation in ascending name order, and equal names keep their order |
| `Menu.NormalizeIdempotent` | menu.py:60 | normalising an already normalised name gives it back unchanged |
| `CommandLineTools.SuccessText` | command_line_tools.py:5-10 | the text is `COLOR_SUCCESS + msg + COLOR_RESET` |
| `CommandLineTools.ErrorText` | command_line_tools.py:12-17 | the text is `COLOR_ERROR + "Error: " + msg + COLOR_RESET` |
| `CommandLineTools.Resolve` | command_line_tools.py:36-44 | an accepted choice is one of the option keys, and is either the default or the lower-cased line |
| `CommandLineTools.ResolveSpec` | command_line_tools.py:36-44 | a resolved line is always a key. An empty line gives the default if that is a key. Any other line gives its lower-cased text, unstripped, if that is a key |
| `CommandLineTools.ResolveExamples` | command_line_tools.py:36-44 | `" 1"` does not select key "1" and `"Q"` selects "q". With default `""` an empty line is rejected, and with a key as default it selects that key |
| `CommandLineTools.SelectOption` | command_line_tools.py:19-47 | the result is the first line that resolves, and every earlier line failed. The output is one menu and one error line per rejected line, then the accepting round's menu. Running out of input gives `None` |

## Left out

- main.py: the banners and the user-driven main loop are console I/O, with termination up to the user.
- The `show_*` menu functions in menu.py: their `match` dispatch and `while ... pass` loops, and the fixed main and options menus, are not modelled. Only the computations inside them are: option lists, indices, input normalisation, suggestion ranking and move ordering.
- `view_pokemon_stats` and the printing in `view_pokemon_moves` just print fields.
- The console prompt text of `input()` is not modelled.
- Network transport is not modelled. This covers `requests.get`, query-string encoding (a request is its URL plus parameters), decoding the response body, the GET log line (pokeapi.py:24) and the `except` clause (pokeapi.py:34). The model makes no claim that connection errors become `None`.
- PokeApi.Entries: a results entry whose `name` is not a string raises `UnsupportedName` at once, before its `url` is looked up. Python differs in three cases, none modelled:
  - a hashable non-string name (a number, a boolean or `None`) is stored as a key and fails only when the ranking calls `len()` on it;
  - an unhashable name (a list or a dict) raises TypeError inside the dict comprehension;
  - a non-string name in an entry without `url` raises KeyError('url'), where the model raises `UnsupportedName`.
- PokeApi.UrlOf and PokeApi.ChainUrl: a truthy URL that is not a string raises `InvalidUrl`. Python hands it to requests, which rejects it.
- The evolution chain is a typed record. JSON of the wrong shape there (a list where a dict is expected, for example) is not modelled.
- Errors from `open`/`json.dump` when writing `history.json` are not modelled.
- `list(json.load(...))` on a file that holds JSON other than a list of strings is not modelled.
- Case mapping (`lower`, `capitalize`, `title`) covers ASCII letters only, and `strip` covers ASCII whitespace only. Other characters are left unchanged.
- StringTools.SnakeCaseToTitleCase: a non-ASCII letter counts as a word break, because only ASCII letters are letters here. Python's `"pokémon".title()` gives `"Pokémon"`; the model gives `"PokéMon"`.
- History.HistoryStore.LoadHistoryFile: `Undecodable` stands only for content that `json.load` rejects with `JSONDecodeError`. Any other error opening or reading the file (no permission, a directory, bytes that are not valid text) propagates in Python and is not modelled.
- PokeApi.CacheTwice: the web service is a fixed function from requests to responses, so a repeated request gets the same response. The clause that the second result equals the first, when the first build is empty or raises, rests on that.
- JSON numbers are integers. Floating point is not modelled.
- Json.Json: an `Object` may hold a repeated key, because neither the type nor any predicate excludes one. No decoded Python dict can do that. On such an object `Subscript` returns the first binding, where `json.loads` keeps the last. The server responses are not restricted to objects without repeated keys.
- Menu.SortedMoves: a move is a typed record whose name is a string, standing for `move["move"]["name"]` (menu.py:178). So the KeyError or TypeError that `sorted` raises on a move without those keys, or with a name that is not a string, is not modelled.
- CommandLineTools.SelectOption: when the input lines run out, the source's `input()` raises EOFError. The model returns `None` instead.
- Algorithms.Lev is the specification of the two-row loop. The loop's O(min(len a, len b)) memory bound is not stated.
