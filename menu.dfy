/** The computations inside the interactive menus of menu.py: the suggestion
    ranking, the numbered option lists and what choosing a number selects,
    the normalisation of the search input, and the ordering of moves. */
module Menu {
  import opened Wrappers
  import opened Ascii
  import opened Decimal
  import opened Json
  import Dicts
  import Sorting
  import Algorithms
  import CommandLineTools
  import PokeApi
  import opened Slices

  const BACK_LABEL := "\U{21A9} Back to Main Menu"
  const MAX_SUGGESTIONS := 3

  // ---------------------------------------------------------------------------
  // Suggestions

  /** "`a` is not farther from `input` than `b`": the order of `sorted(...,
      key=lambda name: levenshtein_distance(input_name, name))`. */
  function CloserTo(input: string): (string, string) -> bool
  {
    (a: string, b: string) => Algorithms.Lev(input, a) <= Algorithms.Lev(input, b)
  }

  lemma {:induction false} CloserToIsTotalPreorder(input: string)
    ensures Sorting.TotalPreorder(CloserTo(input))
  {
  }

  /** The body of `get_pokemon_suggestions(input_name)` once the cache is at
      hand: `None` for an empty cache, otherwise the keys sorted by distance
      to the input, the first three kept. */
  function RankSuggestions(input: string, cache: Dicts.Dict<Json>): (r: Option<seq<string>>)
    ensures r.None? <==> cache == []
    ensures r.Some? ==> |r.value| == Min(MAX_SUGGESTIONS, |cache|)
  {
    if cache == [] then None
    else
      var keys := Dicts.Keys(cache);
      Some(Sorting.Sort(keys, CloserTo(input))[..Min(MAX_SUGGESTIONS, |keys|)])
  }

  /** The suggestions are the first min(3, n) names of the ranking, each a
      cached name, none twice. */
  lemma {:induction false} SuggestionsFromCache(input: string, cache: Dicts.Dict<Json>)
    requires cache != [] && Dicts.Distinct(Dicts.Keys(cache))
    ensures RankSuggestions(input, cache).Some?
    ensures var r := RankSuggestions(input, cache).value;
      var keys := Dicts.Keys(cache);
      && |r| == Min(MAX_SUGGESTIONS, |keys|)
      && r == Sorting.Sort(keys, CloserTo(input))[..|r|]
      && (forall i :: 0 <= i < |r| ==> r[i] in keys)
      && Dicts.Distinct(r)
  {
    var keys := Dicts.Keys(cache);
    var sorted := Sorting.Sort(keys, CloserTo(input));
    var r := RankSuggestions(input, cache).value;
    CloserToIsTotalPreorder(input);
    Sorting.SortedPrefix(keys, CloserTo(input), |r|);
    Dicts.DistinctPermutation(keys, sorted);
  }

  /** The suggestions come in nondecreasing distance. */
  lemma {:induction false} SuggestionsOrdered(input: string, cache: Dicts.Dict<Json>)
    requires cache != []
    ensures RankSuggestions(input, cache).Some?
    ensures var r := RankSuggestions(input, cache).value;
      forall i, j :: 0 <= i < j < |r| ==> Algorithms.Lev(input, r[i]) <= Algorithms.Lev(input, r[j])
  {
    var keys := Dicts.Keys(cache);
    var sorted := Sorting.Sort(keys, CloserTo(input));
    var r := RankSuggestions(input, cache).value;
    assert r == sorted[..|r|];
    CloserToIsTotalPreorder(input);
    Sorting.SortedPrefix(keys, CloserTo(input), |r|);
    forall i, j | 0 <= i < j < |r| ensures Algorithms.Lev(input, r[i]) <= Algorithms.Lev(input, r[j]) {
      assert CloserTo(input)(sorted[i], sorted[j]);
    }
  }

  /** No name left out of the suggestions is closer than the last one. */
  lemma {:induction false} SuggestionsClosest(input: string, cache: Dicts.Dict<Json>)
    requires cache != []
    ensures RankSuggestions(input, cache).Some?
    ensures var r := RankSuggestions(input, cache).value;
      && |r| > 0
      && forall k :: k in Dicts.Keys(cache) && k !in r ==> Algorithms.Lev(input, r[|r| - 1]) <= Algorithms.Lev(input, k)
  {
    var keys := Dicts.Keys(cache);
    var sorted := Sorting.Sort(keys, CloserTo(input));
    var r := RankSuggestions(input, cache).value;
    assert r == sorted[..|r|];
    CloserToIsTotalPreorder(input);
    Sorting.SortedPrefix(keys, CloserTo(input), |r|);
    forall k | k in keys && k !in r ensures Algorithms.Lev(input, r[|r| - 1]) <= Algorithms.Lev(input, k) {
      assert CloserTo(input)(sorted[|r| - 1], k);
    }
  }

  /** Names at the same distance are ranked in cache order. */
  lemma {:induction false} RankingStable(input: string, cache: Dicts.Dict<Json>)
    ensures var keys := Dicts.Keys(cache);
      forall e :: Sorting.EqualKeys(Sorting.Sort(keys, CloserTo(input)), e, CloserTo(input))
                == Sorting.EqualKeys(keys, e, CloserTo(input))
  {
    var keys := Dicts.Keys(cache);
    CloserToIsTotalPreorder(input);
    forall e ensures Sorting.EqualKeys(Sorting.Sort(keys, CloserTo(input)), e, CloserTo(input))
                  == Sorting.EqualKeys(keys, e, CloserTo(input)) {
      Sorting.SortStable(keys, e, CloserTo(input));
    }
  }

  /** For a non-empty cache: min(3, number of names) suggestions, each a cached
      name, none twice, in nondecreasing distance, no name left out closer than
      the last suggestion, and names at equal distance in cache order. */
  lemma {:induction false} SuggestionsSpec(input: string, cache: Dicts.Dict<Json>)
    requires cache != [] && Dicts.Distinct(Dicts.Keys(cache))
    ensures RankSuggestions(input, cache).Some?
    ensures var r := RankSuggestions(input, cache).value;
      var keys := Dicts.Keys(cache);
      && |r| == Min(MAX_SUGGESTIONS, |keys|)
      && (forall i :: 0 <= i < |r| ==> r[i] in keys)
      && Dicts.Distinct(r)
      && (forall i, j :: 0 <= i < j < |r| ==> Algorithms.Lev(input, r[i]) <= Algorithms.Lev(input, r[j]))
      && (forall k :: k in keys && k !in r ==> Algorithms.Lev(input, r[|r| - 1]) <= Algorithms.Lev(input, k))
      && r == Sorting.Sort(keys, CloserTo(input))[..|r|]
      && (forall e :: Sorting.EqualKeys(Sorting.Sort(keys, CloserTo(input)), e, CloserTo(input))
                   == Sorting.EqualKeys(keys, e, CloserTo(input)))
  {
    SuggestionsFromCache(input, cache);
    SuggestionsOrdered(input, cache);
    SuggestionsClosest(input, cache);
    RankingStable(input, cache);
  }

  /** A first cached name at least as close as every other one is the top suggestion. */
  lemma {:induction false} ClosestFirstKeyLeads(input: string, cache: Dicts.Dict<Json>)
    requires cache != []
    requires forall i :: 0 <= i < |cache| ==> Algorithms.Lev(input, cache[0].0) <= Algorithms.Lev(input, cache[i].0)
    ensures RankSuggestions(input, cache).Some? && RankSuggestions(input, cache).value != []
    ensures RankSuggestions(input, cache).value[0] == cache[0].0
  {
    var keys := Dicts.Keys(cache);
    CloserToIsTotalPreorder(input);
    Sorting.SortKeepsMinimalHead(keys, CloserTo(input));
  }

  /** With a cache of bulbasaur, charmander and squirtle, "bulbasaurr" is
      closest to "bulbasaur". */
  lemma {:induction false} SuggestionExample(input: string, cache: Dicts.Dict<Json>, url: Json)
    requires input == "bulbasaurr"
    requires cache == [("bulbasaur", url), ("charmander", url), ("squirtle", url)]
    ensures RankSuggestions(input, cache).Some? && RankSuggestions(input, cache).value != []
    ensures RankSuggestions(input, cache).value[0] == "bulbasaur"
  {
    var first := cache[0].0;
    assert input == first + ['r'];
    Algorithms.LevAppendOne(first, 'r');
    Algorithms.LevSymmetric(input, first);
    forall i | 0 <= i < |cache| ensures Algorithms.Lev(input, first) <= Algorithms.Lev(input, cache[i].0) {
      if i > 0 {
        assert input[1] != cache[1].0[1] && input[0] != cache[2].0[0];
        Algorithms.LevZeroIff(input, cache[i].0);
      }
    }
    ClosestFirstKeyLeads(input, cache);
  }

  /** `get_pokemon_suggestions(input_name)`: the cache is obtained as by
      FetchOrGetPokemonCache, whose exception propagates. */
  method GetPokemonSuggestions(client: PokeApi.Client, input: string) returns (r: Result<Option<seq<string>>>)
    requires client.Valid()
    modifies client`cache, client`log
    ensures client.Valid()
    ensures var built := if PokeApi.CacheSet(old(client.cache)) then Ok(old(client.cache).value)
                         else PokeApi.BuildCache(PokeApi.FetchResult(client.server(PokeApi.AllPokemonRequest())));
      var before := if PokeApi.CacheSet(old(client.cache)) then old(client.log)
                    else old(client.log) + [PokeApi.AllPokemonRequest()];
      client.log == before &&
      match built
      case Raised(e) => r == Raised(e) && client.cache == old(client.cache)
      case Ok(cache) => r == Ok(RankSuggestions(input, cache)) && client.cache == Some(cache)
    ensures r.Ok? && r.value.Some? ==>
      client.cache.Some? && var keys := Dicts.Keys(client.cache.value);
      var names := r.value.value;
      && |names| == Min(MAX_SUGGESTIONS, |keys|)
      && (forall i :: 0 <= i < |names| ==> names[i] in keys)
      && Dicts.Distinct(names)
      && (forall i, j :: 0 <= i < j < |names| ==> Algorithms.Lev(input, names[i]) <= Algorithms.Lev(input, names[j]))
  {
    var built := client.FetchOrGetPokemonCache();
    if built.Raised? {
      return Raised(built.error);
    }
    if built.value != [] {
      SuggestionsSpec(input, built.value);
    }
    r := Ok(RankSuggestions(input, built.value));
  }

  // ---------------------------------------------------------------------------
  // Numbered menus (search history and suggestions)

  /** `str(len(names) + 1)` */
  function BackOption(names: seq<string>): string
  {
    NatToDecimal(|names| + 1)
  }

  /** The options of the history menu and of the suggestion menu: the names,
      capitalised, under the keys 1 to n, then the back option n + 1. */
  function NumberedOptions(names: seq<string>): (r: seq<(string, string)>)
    ensures |r| == |names| + 1 && r[|names|] == (BackOption(names), BACK_LABEL)
    ensures forall i :: 0 <= i < |names| ==> r[i].1 == Capitalize(names[i])
  {
    seq(|names|, i requires 0 <= i < |names| => (NatToDecimal(i + 1), Capitalize(names[i])))
      + [(BackOption(names), BACK_LABEL)]
  }

  /** The keys "1" to "n". */
  function NumberKeys(n: nat): (r: seq<string>)
    ensures |r| == n && forall i :: 0 <= i < n ==> r[i] == NatToDecimal(i + 1)
  {
    seq(n, i requires 0 <= i < n => NatToDecimal(i + 1))
  }

  /** The keys "1" to "n" are pairwise different. */
  lemma {:induction false} NumberKeysDistinct(n: nat)
    ensures Dicts.Distinct(NumberKeys(n))
  {
    var ks := NumberKeys(n);
    forall i, j | 0 <= i < j < n ensures ks[i] != ks[j] {
      assert ks[i] == NatToDecimal(i + 1) && ks[j] == NatToDecimal(j + 1);
      if ks[i] == ks[j] {
        DecimalInjective(i + 1, j + 1);
      }
    }
  }

  lemma {:induction false} NumberedOptionKeys(names: seq<string>)
    ensures CommandLineTools.OptionKeys(NumberedOptions(names)) == NumberKeys(|names| + 1)
    ensures Dicts.Distinct(CommandLineTools.OptionKeys(NumberedOptions(names)))
    ensures forall i :: 0 <= i < |names| ==> NumberedOptions(names)[i].1 == Capitalize(names[i])
  {
    var options := NumberedOptions(names);
    var keys := CommandLineTools.OptionKeys(options);
    var numbers := NumberKeys(|names| + 1);
    forall i | 0 <= i <= |names| ensures keys[i] == numbers[i] {
      if i == |names| {
        assert options[i] == (BackOption(names), BACK_LABEL);
      }
    }
    assert keys == numbers;
    NumberKeysDistinct(|names| + 1);
  }

  /** What a menu choice selects. */
  datatype Selection = Back | Chosen(name: string)

  /** `names[int(choice) - 1]`, unless the choice is the back option. */
  function SelectedName(names: seq<string>, choice: string): (r: Selection)
    requires choice in CommandLineTools.OptionKeys(NumberedOptions(names))
    ensures r.Back? <==> choice == BackOption(names)
    ensures r.Chosen? ==> r.name in names
  {
    NumberedOptionKeys(names);
    if choice == BackOption(names) then Back
    else
      var k :| 0 <= k <= |names| && choice == NatToDecimal(k + 1);
      DecimalRoundTrip(k + 1);
      Chosen(names[DecimalValue(choice) - 1])
  }

  /** Choosing k in 1..n selects the k-th name, and n + 1 selects Back. */
  lemma {:induction false} SelectingNumber(names: seq<string>, k: nat)
    requires 1 <= k <= |names| + 1
    ensures NatToDecimal(k) in CommandLineTools.OptionKeys(NumberedOptions(names))
    ensures SelectedName(names, NatToDecimal(k)) == if k <= |names| then Chosen(names[k - 1]) else Back
  {
    NumberedOptionKeys(names);
    assert NatToDecimal(k) == CommandLineTools.OptionKeys(NumberedOptions(names))[k - 1];
    DecimalRoundTrip(k);
    if k <= |names| && NatToDecimal(k) == BackOption(names) {
      DecimalInjective(k, |names| + 1);
    }
  }

  /** The history menu has no default, so an empty line is rejected; the
      suggestion menu defaults to its back option, so an empty line goes back. */
  lemma {:induction false} MenuDefaults(names: seq<string>)
    ensures CommandLineTools.Resolve(NumberedOptions(names), "", "") == None
    ensures CommandLineTools.Resolve(NumberedOptions(names), BackOption(names), "") == Some(BackOption(names))
  {
    NumberedOptionKeys(names);
    var keys := CommandLineTools.OptionKeys(NumberedOptions(names));
    assert keys[|names|] == BackOption(names);
    assert "" !in keys;
  }

  /** The suggestion menu of `show_pokemon_search_menu`: `len(None)` raises
      when there were no suggestions. */
  function SuggestionMenu(suggested: Option<seq<string>>): (r: Result<seq<(string, string)>>)
    ensures r.Raised? <==> suggested.None?
    ensures suggested.None? ==> r == Raised(TypeError)
    ensures suggested.Some? ==> r == Ok(NumberedOptions(suggested.value))
  {
    match suggested
    case None => Raised(TypeError)
    case Some(names) => Ok(NumberedOptions(names))
  }

  // ---------------------------------------------------------------------------
  // Search input

  /** `input(...).strip().lower()`, with empty input rejected before any lookup. */
  function NormalizeSearchInput(line: string): (r: Option<string>)
    ensures r.None? <==> forall i :: 0 <= i < |line| ==> IsSpace(line[i])
    ensures r.Some? ==> r.value != "" && !IsSpace(r.value[0]) && !IsSpace(r.value[|r.value| - 1])
    ensures r.Some? ==> forall i :: 0 <= i < |r.value| ==> !IsUpper(r.value[i])
    ensures r.Some? ==> |r.value| <= |line|
    ensures r.Some? ==>
      |r.value| == |Strip(line)| && forall i :: 0 <= i < |r.value| ==> r.value[i] == ToLower(Strip(line)[i])
  {
    var name := Lower(Strip(line));
    if name == "" then None else Some(name)
  }

  /** Normalising is idempotent: a name that came out of it comes out unchanged. */
  lemma NormalizeIdempotent(line: string)
    ensures NormalizeSearchInput(line).Some? ==>
      NormalizeSearchInput(NormalizeSearchInput(line).value) == NormalizeSearchInput(line)
  {
    var r := NormalizeSearchInput(line);
    if r.Some? {
      var name := r.value;
      forall i | 0 <= i < |name| ensures IsSpace(name[i]) <==> IsSpace(Strip(line)[i]) {
        CaseRoundTrip(Strip(line)[i]);
      }
      StripTrimmed(name);
      LowerIdempotent(Strip(line));
    }
  }

  // ---------------------------------------------------------------------------
  // Moves

  /** An entry of `pokemon_data["moves"]`: `move["move"]["name"]` and the rest of the entry. */
  datatype Move = Move(name: string, details: Json)

  /** Python's `a <= b` on strings: code points compared lexicographically. */
  predicate NameLe(a: string, b: string)
  {
    a == [] || (b != [] && (a[0] < b[0] || (a[0] == b[0] && NameLe(a[1..], b[1..]))))
  }

  lemma {:induction false} NameLeTotal(a: string, b: string)
    ensures NameLe(a, b) || NameLe(b, a)
  {
    if a != [] && b != [] && a[0] == b[0] {
      NameLeTotal(a[1..], b[1..]);
    }
  }

  lemma {:induction false} NameLeTransitive(a: string, b: string, c: string)
    requires NameLe(a, b) && NameLe(b, c)
    ensures NameLe(a, c)
  {
    if a != [] && b != [] && c != [] && a[0] == b[0] && b[0] == c[0] {
      NameLeTransitive(a[1..], b[1..], c[1..]);
    }
  }

  function ByName(): (Move, Move) -> bool
  {
    (x: Move, y: Move) => NameLe(x.name, y.name)
  }

  lemma ByNameIsTotalPreorder()
    ensures Sorting.TotalPreorder(ByName())
  {
    forall x: Move, y: Move ensures ByName()(x, y) || ByName()(y, x) {
      NameLeTotal(x.name, y.name);
    }
    forall x: Move, y: Move, z: Move | ByName()(x, y) && ByName()(y, z) ensures ByName()(x, z) {
      NameLeTransitive(x.name, y.name, z.name);
    }
  }

  /** `sorted(pokemon_data["moves"], key=lambda move: move["move"]["name"])` */
  function SortedMoves(moves: seq<Move>): (r: seq<Move>)
    ensures |r| == |moves| && multiset(r) == multiset(moves)
  {
    Sorting.Sort(moves, ByName())
  }

  /** The moves are listed in ascending order of name, each move once, and
      moves with the same name in their original order. */
  lemma {:induction false} SortedMovesSpec(moves: seq<Move>)
    ensures multiset(SortedMoves(moves)) == multiset(moves)
    ensures forall i, j :: 0 <= i < j < |moves| ==> NameLe(SortedMoves(moves)[i].name, SortedMoves(moves)[j].name)
    ensures forall e :: Sorting.EqualKeys(SortedMoves(moves), e, ByName()) == Sorting.EqualKeys(moves, e, ByName())
  {
    ByNameIsTotalPreorder();
    Sorting.SortSorted(moves, ByName());
    forall e ensures Sorting.EqualKeys(SortedMoves(moves), e, ByName()) == Sorting.EqualKeys(moves, e, ByName()) {
      Sorting.SortStable(moves, e, ByName());
    }
    assert |SortedMoves(moves)| == |moves| by {
      assert |multiset(SortedMoves(moves))| == |multiset(moves)|;
    }
  }
}
