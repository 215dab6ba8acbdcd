/** The evolution-chain formatter and the title-case helper of string_tools.py. */
module StringTools {
  import opened Wrappers
  import opened Ascii

  /** The `species` object of a chain node; `name: None` is a species without a `name` key. */
  datatype Species = Species(name: Option<string>)

  /** A node of an evolution-chain record. `EmptyNode` is the empty dict `{}`,
      which is falsy and stops the walk; it also stands for the `None` the
      walk moves to when `evolves_to` is empty. In `Node`, `species: None` is a
      node without a `species` key, and a missing `evolves_to` is the empty list. */
  datatype ChainNode =
    | EmptyNode
    | Node(species: Option<Species>, evolvesTo: seq<ChainNode>)

  /** The evolution-chain record; `chain: None` is a record without a `chain` key. */
  datatype ChainData = ChainData(chain: Option<ChainNode>)

  const HIGHLIGHT_START := "\U{1B}[92m"
  const HIGHLIGHT_END := "\U{1B}[0m"
  const SEPARATOR := " -> "
  const NO_EVOLUTIONS := "This Pok\U{E9}mon has no known evolutions."

  /** `chain_data.get("chain", {})` */
  function Root(data: ChainData): ChainNode
  {
    match data.chain
    case None => EmptyNode
    case Some(n) => n
  }

  /** `node.get("species", {}).get("name", "")` */
  function SpeciesName(n: ChainNode): string
    requires n.Node?
  {
    match n.species
    case None => ""
    case Some(Species(None)) => ""
    case Some(Species(Some(name))) => name
  }

  /** The number of nodes on the first-child path before the walk stops. */
  function PathLength(n: ChainNode): nat
  {
    if n.EmptyNode? then 0
    else if n.evolvesTo == [] then 1
    else 1 + PathLength(n.evolvesTo[0])
  }

  /** The names the walk collects from node `n` on. */
  function LineageFrom(n: ChainNode): (names: seq<string>)
    ensures |names| == PathLength(n)
  {
    if n.EmptyNode? then []
    else [SpeciesName(n)] + (if n.evolvesTo == [] then [] else LineageFrom(n.evolvesTo[0]))
  }

  /** The lineage of a chain record, root first. */
  function Lineage(data: ChainData): seq<string>
  {
    LineageFrom(Root(data))
  }

  /** The node reached from `n` by following the first child `k` times;
      `EmptyNode` once the path has stopped. */
  function Descendant(n: ChainNode, k: nat): ChainNode
  {
    if k == 0 then n
    else if n.EmptyNode? || n.evolvesTo == [] then EmptyNode
    else Descendant(n.evolvesTo[0], k - 1)
  }

  /** The names-collecting loop of `format_evolution_chain`. */
  method ExtractNames(data: ChainData) returns (names: seq<string>)
    ensures names == Lineage(data)
  {
    names := [];
    var current := Root(data);
    while current.Node?
      invariant names + LineageFrom(current) == Lineage(data)
      decreases PathLength(current)
    {
      names := names + [SpeciesName(current)];
      var evolvesTo := current.evolvesTo;
      current := if evolvesTo != [] then evolvesTo[0] else EmptyNode;
    }
  }

  /** The k-th name is the species name of the k-th node on the first-child
      path, and the walk ends at the first node that is empty or missing. */
  lemma {:induction false} LineageFromFollowsFirstChildren(n: ChainNode)
    ensures forall k :: 0 <= k < |LineageFrom(n)| ==>
      Descendant(n, k).Node? && LineageFrom(n)[k] == SpeciesName(Descendant(n, k))
    ensures Descendant(n, |LineageFrom(n)|).EmptyNode?
    decreases n
  {
    if n.Node? && n.evolvesTo != [] {
      var child := n.evolvesTo[0];
      LineageFromFollowsFirstChildren(child);
      forall k | 1 <= k < |LineageFrom(n)|
        ensures Descendant(n, k).Node? && LineageFrom(n)[k] == SpeciesName(Descendant(n, k))
      {
        assert Descendant(n, k) == Descendant(child, k - 1);
      }
      assert Descendant(n, |LineageFrom(n)|) == Descendant(child, |LineageFrom(child)|);
    }
  }

  lemma {:induction false} LineageFollowsFirstChildren(data: ChainData)
    ensures forall k :: 0 <= k < |Lineage(data)| ==>
      Descendant(Root(data), k).Node? && Lineage(data)[k] == SpeciesName(Descendant(Root(data), k))
    ensures Descendant(Root(data), |Lineage(data)|).EmptyNode?
  {
    LineageFromFollowsFirstChildren(Root(data));
  }

  /** No names exactly when `chain` is missing or empty; otherwise the first is the
      root's species name, "" when `species` or `name` is missing; a root without
      `evolves_to` children gives that name alone. */
  lemma {:induction false} LineageEnds(data: ChainData)
    ensures Lineage(data) == [] <==> data.chain == None || data.chain == Some(EmptyNode)
    ensures Lineage(data) != [] ==> Lineage(data)[0] == SpeciesName(Root(data))
    ensures Root(data).Node? && Root(data).evolvesTo == [] ==> Lineage(data) == [SpeciesName(Root(data))]
    ensures Root(data).Node? && Root(data).species.None? ==> Lineage(data)[0] == ""
  {
  }

  /** `name.capitalize()`, wrapped in green when it is the highlighted name. */
  function RenderName(name: string, highlight: string): string
  {
    if name == highlight then HIGHLIGHT_START + Capitalize(name) + HIGHLIGHT_END else Capitalize(name)
  }

  /** `sep.join(parts)` */
  function Join(parts: seq<string>, sep: string): string
  {
    if parts == [] then ""
    else if |parts| == 1 then parts[0]
    else parts[0] + sep + Join(parts[1..], sep)
  }

  function Concat(parts: seq<string>): string
  {
    if parts == [] then "" else parts[0] + Concat(parts[1..])
  }

  function TotalLength(parts: seq<string>): nat
  {
    if parts == [] then 0 else |parts[0]| + TotalLength(parts[1..])
  }

  /** Each part with the separator in front of it. */
  function WithSeparator(parts: seq<string>, sep: string): (r: seq<string>)
    ensures |r| == |parts| && forall i :: 0 <= i < |parts| ==> r[i] == sep + parts[i]
  {
    if parts == [] then [] else [sep + parts[0]] + WithSeparator(parts[1..], sep)
  }

  /** The joined text is the first part followed by each later part with the
      separator in front of it. */
  lemma {:induction false} JoinSeparates(parts: seq<string>, sep: string)
    requires |parts| > 0
    ensures Join(parts, sep) == parts[0] + Concat(WithSeparator(parts[1..], sep))
  {
    if |parts| > 1 {
      var rest := parts[1..];
      JoinSeparates(rest, sep);
      assert rest[1..] == parts[2..];
      var after := WithSeparator(rest[1..], sep);
      assert WithSeparator(rest, sep) == [sep + rest[0]] + after;
      assert ([sep + rest[0]] + after)[1..] == after;
      assert Concat(WithSeparator(rest, sep)) == sep + rest[0] + Concat(after);
    }
  }

  /** n parts give n - 1 separators. */
  lemma {:induction false} JoinLength(parts: seq<string>, sep: string)
    requires |parts| > 0
    ensures |Join(parts, sep)| == TotalLength(parts) + (|parts| - 1) * |sep|
  {
    if |parts| > 1 {
      var rest := parts[1..];
      JoinLength(rest, sep);
      assert (|parts| - 1) * |sep| == (|rest| - 1) * |sep| + |sep|;
    }
  }

  /** The list comprehension of `format_evolution_chain`: each name rendered. */
  function RenderNames(names: seq<string>, highlight: string): (r: seq<string>)
    ensures |r| == |names| && forall i :: 0 <= i < |names| ==> r[i] == RenderName(names[i], highlight)
  {
    seq(|names|, i requires 0 <= i < |names| => RenderName(names[i], highlight))
  }

  /** The display text for a list of names. */
  function Render(names: seq<string>, highlight: string): string
  {
    if names == [] then NO_EVOLUTIONS else Join(RenderNames(names, highlight), SEPARATOR)
  }

  /** `format_evolution_chain(chain_data, name_to_highlight)` */
  method FormatEvolutionChain(data: ChainData, highlight: string) returns (text: string)
    ensures text == Render(Lineage(data), highlight)
  {
    var names := ExtractNames(data);
    if names == [] {
      return NO_EVOLUTIONS;
    }
    text := Join(RenderNames(names, highlight), SEPARATOR);
  }

  /** Each rendered name is the capitalised name, inside the green codes exactly
      when the raw (not capitalised) name equals the highlighted one. */
  lemma {:induction false} HighlightExactlyWhenEqual(name: string, highlight: string)
    requires name != "" ==> name[0] != '\U{1B}'
    ensures name == highlight <==> |RenderName(name, highlight)| >= |HIGHLIGHT_START|
                                   && RenderName(name, highlight)[..|HIGHLIGHT_START|] == HIGHLIGHT_START
    ensures name == highlight ==> RenderName(name, highlight) == HIGHLIGHT_START + Capitalize(name) + HIGHLIGHT_END
    ensures name != highlight ==> RenderName(name, highlight) == Capitalize(name)
  {
    if name != highlight && |Capitalize(name)| >= |HIGHLIGHT_START| {
      assert Capitalize(name)[0] == ToUpper(name[0]);
      assert Capitalize(name)[..|HIGHLIGHT_START|][0] != HIGHLIGHT_START[0];
    }
  }

  /** The output for a one-name lineage is that name alone, with no separator,
      and an empty lineage gives the fixed message whatever the highlight. */
  lemma {:induction false} RenderShortLineages(name: string, highlight: string)
    ensures Render([name], highlight) == RenderName(name, highlight)
    ensures Render([], highlight) == NO_EVOLUTIONS
  {
  }

  /** Python's `s.title()`: a letter is upper case when it starts the string or
      follows a non-letter, lower case otherwise. */
  function TitleFrom(s: string, previousIsCased: bool): (r: string)
    ensures |r| == |s|
  {
    if s == [] then []
    else
      var c := s[0];
      [if !IsLetter(c) then c else if previousIsCased then ToLower(c) else ToUpper(c)]
        + TitleFrom(s[1..], IsLetter(c))
  }

  /** `s.replace("-", " ")` */
  function ReplaceHyphens(s: string): string
  {
    seq(|s|, i requires 0 <= i < |s| => if s[i] == '-' then ' ' else s[i])
  }

  /** `snake_case_to_title_case(s)`: `s.title().replace("-", " ")` */
  function SnakeCaseToTitleCase(s: string): (r: string)
    ensures |r| == |s| && '-' !in r
  {
    ReplaceHyphens(TitleFrom(s, false))
  }

  lemma {:induction false} TitleFromAt(s: string, previousIsCased: bool)
    ensures forall i :: 0 <= i < |s| && !IsLetter(s[i]) ==> TitleFrom(s, previousIsCased)[i] == s[i]
    ensures forall i :: 0 <= i < |s| && IsLetter(s[i]) ==>
      TitleFrom(s, previousIsCased)[i]
        == if (if i == 0 then previousIsCased else IsLetter(s[i - 1])) then ToLower(s[i]) else ToUpper(s[i])
  {
    if s != [] {
      TitleFromAt(s[1..], IsLetter(s[0]));
      var r := TitleFrom(s, previousIsCased);
      forall i | 1 <= i < |s| ensures r[i] == TitleFrom(s[1..], IsLetter(s[0]))[i - 1] {}
    }
  }

  /** The title-cased text has the input's length and no hyphen: each hyphen
      becomes a space, other non-letters (underscores among them) are kept, and
      a letter is upper-cased when it is first or follows a non-letter and
      lower-cased otherwise. */
  lemma {:induction false} SnakeCaseToTitleCaseSpec(s: string)
    ensures |SnakeCaseToTitleCase(s)| == |s|
    ensures '-' !in SnakeCaseToTitleCase(s)
    ensures forall i :: 0 <= i < |s| && s[i] == '-' ==> SnakeCaseToTitleCase(s)[i] == ' '
    ensures forall i :: 0 <= i < |s| && !IsLetter(s[i]) && s[i] != '-' ==> SnakeCaseToTitleCase(s)[i] == s[i]
    ensures forall i :: 0 <= i < |s| && IsLetter(s[i]) ==>
      IsLetter(SnakeCaseToTitleCase(s)[i])
      && (IsUpper(SnakeCaseToTitleCase(s)[i]) <==> i == 0 || !IsLetter(s[i - 1]))
    ensures forall i :: 0 <= i < |s| && IsLetter(s[i]) ==>
      SnakeCaseToTitleCase(s)[i] == if i == 0 || !IsLetter(s[i - 1]) then ToUpper(s[i]) else ToLower(s[i])
  {
    TitleFromAt(s, false);
    var t := TitleFrom(s, false);
    forall i | 0 <= i < |s| && IsLetter(s[i])
      ensures IsLetter(SnakeCaseToTitleCase(s)[i])
      ensures IsUpper(SnakeCaseToTitleCase(s)[i]) <==> i == 0 || !IsLetter(s[i - 1])
      ensures SnakeCaseToTitleCase(s)[i] == if i == 0 || !IsLetter(s[i - 1]) then ToUpper(s[i]) else ToLower(s[i])
    {
      var up := i == 0 || !IsLetter(s[i - 1]);
      assert t[i] == if up then ToUpper(s[i]) else ToLower(s[i]);
      assert SnakeCaseToTitleCase(s) == ReplaceHyphens(t);
      assert SnakeCaseToTitleCase(s)[i] == t[i];
    }
  }

  /** A three-stage chain, and the same root without children. */
  lemma BulbasaurLineage()
    ensures Lineage(ChainData(Some(Node(Some(Species(Some("bulbasaur"))), [
              Node(Some(Species(Some("ivysaur"))), [
                Node(Some(Species(Some("venusaur"))), [])])]))))
            == ["bulbasaur", "ivysaur", "venusaur"]
    ensures Lineage(ChainData(Some(Node(Some(Species(Some("bulbasaur"))), [])))) == ["bulbasaur"]
  {
  }

  lemma {:induction false} JoinPair(x: string, y: string)
    ensures Join([x, y], SEPARATOR) == x + SEPARATOR + y
  {
    assert [x, y][1..] == [y];
  }

  /** Only the entry equal to the raw highlight is wrapped. */
  lemma RenderHighlightExample()
    ensures Render(["bulbasaur", "ivysaur"], "ivysaur")
            == "Bulbasaur" + SEPARATOR + HIGHLIGHT_START + "Ivysaur" + HIGHLIGHT_END
  {
    var names := ["bulbasaur", "ivysaur"];
    assert Capitalize("bulbasaur") == "Bulbasaur";
    assert Capitalize("ivysaur") == "Ivysaur";
    assert names[0] != "ivysaur" by { assert names[0][0] != "ivysaur"[0]; }
    assert RenderNames(names, "ivysaur") == ["Bulbasaur", HIGHLIGHT_START + "Ivysaur" + HIGHLIGHT_END];
    JoinPair("Bulbasaur", HIGHLIGHT_START + "Ivysaur" + HIGHLIGHT_END);
  }

  /** A capitalised highlight matches no raw name, so nothing is wrapped. */
  lemma RenderCapitalizedHighlightExample()
    ensures Render(["bulbasaur", "ivysaur"], "Ivysaur") == "Bulbasaur" + SEPARATOR + "Ivysaur"
  {
    var names := ["bulbasaur", "ivysaur"];
    assert Capitalize("bulbasaur") == "Bulbasaur";
    assert Capitalize("ivysaur") == "Ivysaur";
    assert names[0] != "Ivysaur" by { assert names[0][0] != "Ivysaur"[0]; }
    assert names[1] != "Ivysaur" by { assert names[1][0] != "Ivysaur"[0]; }
    assert RenderNames(names, "Ivysaur") == ["Bulbasaur", "Ivysaur"];
    JoinPair("Bulbasaur", "Ivysaur");
  }
}
