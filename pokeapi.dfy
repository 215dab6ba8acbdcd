/** The catalog client of pokeapi.py: requests to the web service, the lazily
    built name-to-URL cache, and the lookups composed on top of them. The
    web service is an oracle from requests to responses. */
module PokeApi {
  import opened Wrappers
  import opened Json
  import Dicts
  import Decimal

  const API_URL := "https://pokeapi.co/api/v2/"
  const ALL_POKEMON_ENDPOINT := "pokemon"
  const POKEMON_SPECIES_ENDPOINT := "pokemon-species"
  const BULK_LIMIT := 2000
  const HTTP_OK := 200

  /** A GET request: the URL and its query parameters. */
  datatype Request = Request(url: string, params: seq<(string, int)>)

  /** An HTTP response whose body has already been decoded. */
  datatype Response = Response(status: int, body: Json)

  /** The status rule of `fetch`: only status 200 yields the body. */
  function FetchResult(response: Response): (r: Option<Json>)
    ensures r.Some? <==> response.status == HTTP_OK
    ensures r.Some? ==> r.value == response.body
  {
    if response.status != HTTP_OK then None else Some(response.body)
  }

  /** The request of `fetch_all_pokemon()`. */
  function AllPokemonRequest(): Request
  {
    Request(API_URL + ALL_POKEMON_ENDPOINT, [("limit", BULK_LIMIT)])
  }

  /** The request of `fetch_pokemon_species(pokemon_id)`. */
  function SpeciesRequest(id: nat): Request
  {
    Request(API_URL + POKEMON_SPECIES_ENDPOINT + "/" + Decimal.NatToDecimal(id), [])
  }

  /** `(pokemon["name"], pokemon["url"])` for one entry of the bulk results. */
  function Entry(pokemon: Json): Result<(string, Json)>
  {
    match Subscript(pokemon, "name")
    case Raised(e) => Raised(e)
    case Ok(name) =>
      if !name.Str? then Raised(UnsupportedName)
      else
        match Subscript(pokemon, "url")
        case Raised(e) => Raised(e)
        case Ok(url) => Ok((name.s, url))
  }

  /** The pairs of all entries, or the exception of the first entry that raises. */
  function Entries(items: seq<Json>): Result<seq<(string, Json)>>
  {
    if items == [] then Ok([])
    else
      match Entry(items[0])
      case Raised(e) => Raised(e)
      case Ok(p) =>
        match Entries(items[1..])
        case Raised(e) => Raised(e)
        case Ok(ps) => Ok([p] + ps)
  }

  /** The comprehension succeeds exactly when every entry has its name and url,
      and then yields one pair per entry, in order. */
  lemma {:induction false} EntriesSpec(items: seq<Json>)
    ensures Entries(items).Ok? <==> forall i :: 0 <= i < |items| ==> Entry(items[i]).Ok?
    ensures Entries(items).Ok? ==> |Entries(items).value| == |items|
    ensures Entries(items).Ok? ==> forall i :: 0 <= i < |items| ==> Entry(items[i]) == Ok(Entries(items).value[i])
  {
    if items != [] {
      var rest := items[1..];
      EntriesSpec(rest);
      if Entry(items[0]).Ok? && Entries(rest).Raised? {
        var i :| 0 <= i < |rest| && !Entry(rest[i]).Ok?;
        assert rest[i] == items[i + 1];
      }
      if Entries(items).Ok? {
        var ps := Entries(items).value;
        assert ps == [Entry(items[0]).value] + Entries(rest).value;
        forall i | 0 < i < |items| ensures Entry(items[i]) == Ok(ps[i]) {
          assert items[i] == rest[i - 1] && ps[i] == Entries(rest).value[i - 1];
        }
      }
    }
  }

  /** `{pokemon["name"]: pokemon["url"] for pokemon in fetched_data["results"]}`,
      where `fetched_data` is what the bulk fetch returned; `None` is
      subscripted too, and raises. */
  function BuildCache(fetched: Option<Json>): (r: Result<Dicts.Dict<Json>>)
    ensures fetched.None? ==> r == Raised(TypeError)
    ensures fetched.Some? && Subscript(fetched.value, "results").Raised? ==>
      r == Raised(Subscript(fetched.value, "results").error)
    ensures fetched.Some? && Subscript(fetched.value, "results").Ok?
            && Iterate(Subscript(fetched.value, "results").value).Raised? ==>
      r == Raised(TypeError)
    ensures fetched.Some? && Subscript(fetched.value, "results").Ok?
            && Iterate(Subscript(fetched.value, "results").value).Ok?
            && Entries(Iterate(Subscript(fetched.value, "results").value).value).Raised? ==>
      r == Raised(Entries(Iterate(Subscript(fetched.value, "results").value).value).error)
    ensures fetched.Some? && Subscript(fetched.value, "results").Ok?
            && Iterate(Subscript(fetched.value, "results").value).Ok?
            && Entries(Iterate(Subscript(fetched.value, "results").value).value).Ok? ==>
      r == Ok(Dicts.FromPairs(Entries(Iterate(Subscript(fetched.value, "results").value).value).value))
    ensures r.Ok? ==> Dicts.Distinct(Dicts.Keys(r.value))
  {
    match fetched
    case None => Raised(TypeError)
    case Some(data) =>
      match Subscript(data, "results")
      case Raised(e) => Raised(e)
      case Ok(results) =>
        match Iterate(results)
        case Raised(e) => Raised(e)
        case Ok(items) =>
          match Entries(items)
          case Raised(e) => Raised(e)
          case Ok(pairs) =>
            Dicts.FromPairsSound(pairs);
            Ok(Dicts.FromPairs(pairs))
  }

  /** A failed bulk fetch raises instead of leaving an empty cache. Otherwise
      the cache holds each listed name once, in the order of first appearance,
      bound to the URL of its last entry. */
  lemma {:induction false} BuildCacheSpec(fetched: Option<Json>, items: seq<Json>, pairs: seq<(string, Json)>)
    requires fetched.Some? ==> Subscript(fetched.value, "results").Ok?
    requires fetched.Some? ==> Iterate(Subscript(fetched.value, "results").value) == Ok(items)
    requires fetched.Some? ==> Entries(items) == Ok(pairs)
    ensures fetched.None? ==> BuildCache(fetched) == Raised(TypeError)
    ensures fetched.Some? ==> BuildCache(fetched).Ok?
    ensures fetched.Some? ==> Dicts.Distinct(Dicts.Keys(BuildCache(fetched).value))
    ensures fetched.Some? ==> Dicts.Keys(BuildCache(fetched).value) == Dicts.FirstOccurrences(Dicts.Keys(pairs))
    ensures fetched.Some? ==> forall name :: Dicts.Get(BuildCache(fetched).value, name) == Dicts.LastBinding(pairs, name)
  {
    if fetched.Some? {
      Dicts.FromPairsSound(pairs);
      Dicts.FromPairsKeys(pairs);
    }
  }

  /** An entry without "name" or "url" makes the whole build raise. */
  lemma {:induction false} BuildCacheRaisesOnBadEntry(data: Json, items: seq<Json>, k: nat)
    requires Subscript(data, "results") == Ok(Array(items))
    requires k < |items| && Entry(items[k]).Raised?
    ensures BuildCache(Some(data)).Raised?
  {
    EntriesSpec(items);
  }

  /** Python truthiness of the cache: `None` and `{}` both count as unset. */
  predicate CacheSet(cache: Option<Dicts.Dict<Json>>)
  {
    cache.Some? && cache.value != []
  }

  class Client {
    /** The web service: the response it gives to each request. */
    const server: Request -> Response
    /** `pokemon_cache` */
    var cache: Option<Dicts.Dict<Json>>
    /** Every request issued so far, in order. */
    ghost var log: seq<Request>

    /** A set cache binds each name once, as a dict does. */
    predicate Valid()
      reads this`cache
    {
      cache.Some? ==> Dicts.Distinct(Dicts.Keys(cache.value))
    }

    constructor (server: Request -> Response)
      ensures this.server == server && cache == None && log == []
      ensures Valid()
    {
      this.server := server;
      cache := None;
      log := [];
    }

    /** `fetch(url, params)` */
    method Fetch(request: Request) returns (r: Option<Json>)
      modifies this`log
      ensures log == old(log) + [request]
      ensures r == FetchResult(server(request))
    {
      log := log + [request];
      var response := server(request);
      if response.status != HTTP_OK {
        return None;
      }
      r := Some(response.body);
    }

    /** `fetch_or_get_pokemon_cache()`: a set cache is returned as it is, with no
        request; an unset one (None or empty) is rebuilt by one bulk request,
        and when that build raises the cache is left as it was. */
    method FetchOrGetPokemonCache() returns (r: Result<Dicts.Dict<Json>>)
      requires Valid()
      modifies this`cache, this`log
      ensures Valid()
      ensures CacheSet(old(cache)) ==> r == Ok(old(cache).value) && cache == old(cache) && log == old(log)
      ensures !CacheSet(old(cache)) ==> log == old(log) + [AllPokemonRequest()]
      ensures !CacheSet(old(cache)) ==> r == BuildCache(FetchResult(server(AllPokemonRequest())))
      ensures r.Ok? ==> cache == Some(r.value)
      ensures r.Raised? ==> cache == old(cache)
    {
      if !CacheSet(cache) {
        var fetched := Fetch(AllPokemonRequest());
        var built := BuildCache(fetched);
        if built.Raised? {
          return built;
        }
        cache := Some(built.value);
      }
      r := Ok(cache.value);
    }

    /** `fetch_or_get_pokemon_by_name(pokemon_name)`: the cache is obtained as
        by FetchOrGetPokemonCache; then `None` without a further request when
        the name is unknown or its URL is falsy, otherwise the result of
        fetching that URL. */
    method FetchOrGetPokemonByName(name: string) returns (r: Result<Option<Json>>)
      requires Valid()
      modifies this`cache, this`log
      ensures Valid()
      ensures var built := if CacheSet(old(cache)) then Ok(old(cache).value)
                           else BuildCache(FetchResult(server(AllPokemonRequest())));
              var before := if CacheSet(old(cache)) then old(log) else old(log) + [AllPokemonRequest()];
              match built
              case Raised(e) => r == Raised(e) && cache == old(cache) && log == before
              case Ok(d) =>
                cache == Some(d) &&
                match UrlOf(d, name)
                case Raised(e) => r == Raised(e) && log == before
                case Ok(None) => r == Ok(None) && log == before
                case Ok(Some(url)) => log == before + [Request(url, [])]
                                      && r == Ok(FetchResult(server(Request(url, []))))
    {
      var built := FetchOrGetPokemonCache();
      if built.Raised? {
        return Raised(built.error);
      }
      var url := UrlOf(built.value, name);
      if url.Raised? {
        return Raised(url.error);
      }
      if url.value.None? {
        return Ok(None);
      }
      var fetched := Fetch(Request(url.value.value, []));
      r := Ok(fetched);
    }

    /** `fetch_evolution_chain(pokemon_id)`: `None` when the species fetch gives
        nothing (or a falsy body), and then no second request; otherwise the
        result of fetching `species["evolution_chain"]["url"]`. */
    method FetchEvolutionChain(id: nat) returns (r: Result<Option<Json>>)
      modifies this`log
      ensures |log| >= |old(log)| + 1 && log[..|old(log)| + 1] == old(log) + [SpeciesRequest(id)]
      ensures var species := FetchResult(server(SpeciesRequest(id)));
        if species.None? || !Truthy(species.value) then r == Ok(None) && log == old(log) + [SpeciesRequest(id)]
        else match ChainUrl(species.value)
          case Raised(e) => r == Raised(e) && log == old(log) + [SpeciesRequest(id)]
          case Ok(url) => log == old(log) + [SpeciesRequest(id), Request(url, [])]
                          && r == Ok(FetchResult(server(Request(url, []))))
    {
      var species := Fetch(SpeciesRequest(id));
      if species.None? || !Truthy(species.value) {
        return Ok(None);
      }
      var url := ChainUrl(species.value);
      if url.Raised? {
        return Raised(url.error);
      }
      var chain := Fetch(Request(url.value, []));
      r := Ok(chain);
    }
  }

  /** `pokemon_cache.get(pokemon_name, None)` followed by `if not pokemon_url`:
      the URL to request, if any; a truthy URL must be a string to be requested. */
  function UrlOf(cache: Dicts.Dict<Json>, name: string): (r: Result<Option<string>>)
    ensures name !in Dicts.Keys(cache) ==> r == Ok(None)
    ensures r == Ok(None) <==> Dicts.Get(cache, name).None? || !Truthy(Dicts.Get(cache, name).value)
    ensures r.Ok? && r.value.Some? ==> (name, Str(r.value.value)) in cache && r.value.value != ""
    ensures Dicts.Get(cache, name).Some? && Dicts.Get(cache, name).value.Str? && Dicts.Get(cache, name).value.s != "" ==>
      r == Ok(Some(Dicts.Get(cache, name).value.s))
    ensures r.Raised? <==>
      Dicts.Get(cache, name).Some? && Truthy(Dicts.Get(cache, name).value) && !Dicts.Get(cache, name).value.Str?
    ensures r.Raised? ==> r.error == InvalidUrl
  {
    match Dicts.Get(cache, name)
    case None => Ok(None)
    case Some(url) =>
      if !Truthy(url) then Ok(None)
      else if url.Str? then Ok(Some(url.s))
      else Raised(InvalidUrl)
  }

  /** `species["evolution_chain"]["url"]`, which must be a string to be requested. */
  function ChainUrl(species: Json): (r: Result<string>)
    ensures r.Ok? ==> species.Object? && Subscript(species, "evolution_chain").Ok?
                      && Subscript(Subscript(species, "evolution_chain").value, "url") == Ok(Str(r.value))
    ensures Subscript(species, "evolution_chain").Ok? && Subscript(Subscript(species, "evolution_chain").value, "url").Ok?
            && Subscript(Subscript(species, "evolution_chain").value, "url").value.Str? ==>
      r == Ok(Subscript(Subscript(species, "evolution_chain").value, "url").value.s)
    ensures Subscript(species, "evolution_chain").Ok? && Subscript(Subscript(species, "evolution_chain").value, "url").Raised? ==>
      r == Raised(Subscript(Subscript(species, "evolution_chain").value, "url").error)
    ensures Subscript(species, "evolution_chain").Ok? && Subscript(Subscript(species, "evolution_chain").value, "url").Ok?
            && !Subscript(Subscript(species, "evolution_chain").value, "url").value.Str? ==>
      r == Raised(InvalidUrl)
    ensures !species.Object? ==> r == Raised(TypeError)
    ensures species.Object? && "evolution_chain" !in Dicts.Keys(species.fields) ==> r == Raised(KeyError("evolution_chain"))
    ensures r.Raised? ==> r.error in {TypeError, KeyError("evolution_chain"), KeyError("url"), InvalidUrl}
  {
    match Subscript(species, "evolution_chain")
    case Raised(e) => Raised(e)
    case Ok(chain) =>
      match Subscript(chain, "url")
      case Raised(e) => Raised(e)
      case Ok(url) => if url.Str? then Ok(url.s) else Raised(InvalidUrl)
  }

  /** Two calls in a row: a non-empty cache from the first call is returned
      by the second without another bulk request; an empty one counts as
      unset, so the second call requests the catalog again. */
  method CacheTwice(client: Client) returns (first: Result<Dicts.Dict<Json>>, second: Result<Dicts.Dict<Json>>)
    requires !CacheSet(client.cache) && client.Valid()
    modifies client`cache, client`log
    ensures first == BuildCache(FetchResult(client.server(AllPokemonRequest())))
    ensures first.Ok? && first.value != [] ==> second == first && client.log == old(client.log) + [AllPokemonRequest()]
    ensures first.Ok? && first.value == [] ==>
      second == first && client.log == old(client.log) + [AllPokemonRequest(), AllPokemonRequest()]
    ensures first.Raised? ==>
      second == first && client.cache == old(client.cache)
      && client.log == old(client.log) + [AllPokemonRequest(), AllPokemonRequest()]
  {
    first := client.FetchOrGetPokemonCache();
    second := client.FetchOrGetPokemonCache();
  }

  /** The URLs the module builds. */
  lemma {:induction false} RequestUrls(id: nat)
    ensures AllPokemonRequest() == Request("https://pokeapi.co/api/v2/pokemon", [("limit", 2000)])
    ensures SpeciesRequest(id).url == "https://pokeapi.co/api/v2/pokemon-species/" + Decimal.NatToDecimal(id)
    ensures SpeciesRequest(25).url == "https://pokeapi.co/api/v2/pokemon-species/25"
  {
    assert Decimal.NatToDecimal(25) == "25";
  }
}
