/** The search history of history.py: an in-memory list of names, most recent
    first, and the file it is written to. */
module History {
  import opened Dicts
  import opened Slices

  const HISTORY_MAX_ENTRIES := 10

  /** What `history.json` holds: no file, content `json.load` rejects, or a
      list of names. */
  datatype HistoryFile = Missing | Undecodable | Written(names: seq<string>)

  /** The in-memory list after recording `name`: unchanged when the name is
      already anywhere in it, otherwise the name in front of the old list
      (the list itself is never truncated). */
  function Recorded(history: seq<string>, name: string): (r: seq<string>)
    ensures |r| == |history| + (if name in history then 0 else 1) && name in r
  {
    if name in history then history else [name] + history
  }

  /** What is written to the file: `pokemon_history[:HISTORY_MAX_ENTRIES]`. */
  function Persisted(history: seq<string>): (r: seq<string>)
    ensures |r| == Min(HISTORY_MAX_ENTRIES, |history|)
    ensures r == history[..|r|]
  {
    history[..Min(HISTORY_MAX_ENTRIES, |history|)]
  }

  /** The list `load_history_file` reads back. */
  function Loaded(file: HistoryFile): seq<string>
  {
    match file
    case Written(names) => names
    case _ => []
  }

  class HistoryStore {
    /** `pokemon_history` */
    var history: seq<string>
    /** the content of `history.json` */
    var file: HistoryFile

    constructor (file: HistoryFile)
      ensures history == [] && this.file == file
    {
      history := [];
      this.file := file;
    }

    /** `add_to_history_file(pokemon_name)` */
    method AddToHistoryFile(name: string)
      modifies this
      ensures history == Recorded(old(history), name)
      ensures file == if name in old(history) then old(file) else Written(Persisted(history))
    {
      if name in history {
        return;
      }
      history := [name] + history;
      file := Written(history[..Min(HISTORY_MAX_ENTRIES, |history|)]);
    }

    /** `load_history_file()`: a missing or undecodable file gives an empty list. */
    method LoadHistoryFile()
      modifies this`history
      ensures history == Loaded(file)
    {
      match file
      case Written(names) =>
        history := names;
      case _ =>
        history := [];
    }
  }

  /** A repeat leaves the list as it was; a new name goes in front of an
      otherwise unchanged list, so the new name is the only element added. */
  lemma {:induction false} RecordedShape(history: seq<string>, name: string)
    ensures name in history ==> Recorded(history, name) == history
    ensures name !in history ==> Recorded(history, name)[0] == name && Recorded(history, name)[1..] == history
    ensures name in Recorded(history, name)
    ensures multiset(Recorded(history, name))
         == multiset(history) + (if name in history then multiset{} else multiset{name})
  {
  }

  /** Recording keeps the list free of duplicates. */
  lemma {:induction false} RecordedDistinct(history: seq<string>, name: string)
    requires Distinct(history)
    ensures Distinct(Recorded(history, name))
  {
    if name !in history {
      var r := [name] + history;
      forall i, j | 0 <= i < j < |r| ensures r[i] != r[j] {
        if i == 0 {
          assert r[j] == history[j - 1];
        } else {
          assert r[i] == history[i - 1] && r[j] == history[j - 1];
        }
      }
    }
  }

  /** Recording each of `names` in turn, as successive views in one session do. */
  function RecordAll(history: seq<string>, names: seq<string>): seq<string>
    decreases names
  {
    if names == [] then history else RecordAll(Recorded(history, names[0]), names[1..])
  }

  function Reverse(s: seq<string>): (r: seq<string>)
    ensures |r| == |s|
  {
    if s == [] then [] else Reverse(s[1..]) + [s[0]]
  }

  /** Distinct new names pile up in front, newest first: the in-memory list
      grows past HISTORY_MAX_ENTRIES within a session. */
  lemma {:induction false} RecordAllNew(history: seq<string>, names: seq<string>)
    requires Distinct(names)
    requires forall i :: 0 <= i < |names| ==> names[i] !in history
    ensures RecordAll(history, names) == Reverse(names) + history
    decreases names
  {
    if names != [] {
      var rest := names[1..];
      TailStaysNew(history, names);
      calc {
        RecordAll(history, names);
        RecordAll(Recorded(history, names[0]), rest);
        { assert Recorded(history, names[0]) == [names[0]] + history; }
        RecordAll([names[0]] + history, rest);
        { RecordAllNew([names[0]] + history, rest); }
        Reverse(rest) + ([names[0]] + history);
        (Reverse(rest) + [names[0]]) + history;
        Reverse(names) + history;
      }
    }
  }

  /** After the first of distinct new names is recorded, the others are still
      distinct and new. */
  lemma {:induction false} TailStaysNew(history: seq<string>, names: seq<string>)
    requires names != [] && Distinct(names)
    requires forall i :: 0 <= i < |names| ==> names[i] !in history
    ensures Distinct(names[1..])
    ensures forall i :: 0 <= i < |names| - 1 ==> names[1..][i] !in [names[0]] + history
  {
    var rest := names[1..];
    forall i | 0 <= i < |rest| ensures rest[i] !in [names[0]] + history {
      assert rest[i] == names[i + 1];
    }
    forall i, j | 0 <= i < j < |rest| ensures rest[i] != rest[j] {
      assert rest[i] == names[i + 1] && rest[j] == names[j + 1];
    }
  }


  /** Eleven distinct views leave eleven names in memory but only the newest
      ten in the file; the oldest is the one dropped. */
  lemma {:induction false} ElevenViews(names: seq<string>)
    requires |names| == HISTORY_MAX_ENTRIES + 1 && Distinct(names)
    ensures |RecordAll([], names)| == HISTORY_MAX_ENTRIES + 1
    ensures Persisted(RecordAll([], names)) == Reverse(names)[..HISTORY_MAX_ENTRIES]
    ensures names[0] !in Persisted(RecordAll([], names))
  {
    RecordAllNew([], names);
    assert Reverse(names) == Reverse(names[1..]) + [names[0]];
    var p := Persisted(RecordAll([], names));
    assert p == Reverse(names[1..]);
    ReverseMembers(names[1..]);
    assert names[0] !in names[1..] by {
      forall i | 0 <= i < |names[1..]| ensures names[1..][i] != names[0] {
        assert names[1..][i] == names[i + 1];
      }
    }
  }

  lemma {:induction false} ReverseMembers(s: seq<string>)
    ensures forall x :: x in Reverse(s) <==> x in s
  {
    if s != [] {
      ReverseMembers(s[1..]);
      assert s == [s[0]] + s[1..];
    }
  }

  /** Recording a new name and loading the file back gives the newest
      HISTORY_MAX_ENTRIES entries of the list, never more. */
  lemma {:induction false} RecordThenReload(history: seq<string>, name: string)
    requires name !in history
    ensures Loaded(Written(Persisted(Recorded(history, name))))
            == ([name] + history)[..Min(HISTORY_MAX_ENTRIES, |history| + 1)]
    ensures |Loaded(Written(Persisted(Recorded(history, name))))| <= HISTORY_MAX_ENTRIES
  {
  }
}
