/** The filters that decide by URL, and the cache of their decisions. */
module UrlFilters {

  datatype Mode = Disabled | Enabled | Unknown

  /** What a filter matches is any predicate of the URL. */
  datatype Filter = Filter(matches: string -> bool, mode: Mode)

  function NameOf(mode: Mode): string {
    match mode
    case Enabled => "enabled"
    case Disabled => "disabled"
    case Unknown => "unknown"
  }

  function ModeNamed(name: string): Mode {
    if name == "disabled" then Disabled else if name == "enabled" then Enabled else Unknown
  }

  lemma NamesAreDistinct(mode: Mode)
    ensures ModeNamed(NameOf(mode)) == mode
  {
    assert "enabled"[0] == 'e' && "disabled"[0] == 'd' && "unknown"[0] == 'u';
  }

  /** The mode of the first filter that matches; unknown if none does. */
  predicate IsFirstMatch(filters: seq<Filter>, url: string, mode: Mode) {
    || (mode == Unknown && forall i | 0 <= i < |filters| :: !filters[i].matches(url))
    || (exists i :: 0 <= i < |filters| && filters[i].matches(url) && filters[i].mode == mode
          && forall j | 0 <= j < i :: !filters[j].matches(url))
  }

  /** What is asked is decided by the filters, if there are any and there is a URL. */
  predicate Decides(filters: seq<Filter>, url: string, mode: Mode) {
    if filters == [] || url == "" then mode == Unknown else IsFirstMatch(filters, url, mode)
  }

  lemma DecisionIsUnique(filters: seq<Filter>, url: string, a: Mode, b: Mode)
    requires Decides(filters, url, a) && Decides(filters, url, b)
    ensures a == b
  {
  }

  function FirstMatch(filters: seq<Filter>, url: string): Mode {
    if filters == [] then Unknown
    else if filters[0].matches(url) then filters[0].mode
    else FirstMatch(filters[1..], url)
  }

  lemma {:induction false} FirstMatchIs(filters: seq<Filter>, url: string)
    ensures IsFirstMatch(filters, url, FirstMatch(filters, url))
  {
    if filters != [] && !filters[0].matches(url) {
      var rest := filters[1..];
      FirstMatchIs(rest, url);
      if exists i :: 0 <= i < |rest| && rest[i].matches(url) {
        var i :| 0 <= i < |rest| && rest[i].matches(url) && rest[i].mode == FirstMatch(rest, url)
          && forall j | 0 <= j < i :: !rest[j].matches(url);
        assert filters[i + 1].matches(url);
        forall j | 0 <= j < i + 1 ensures !filters[j].matches(url) {
          if j > 0 { assert filters[j] == rest[j - 1]; }
        }
      } else {
        forall j | 0 <= j < |filters| ensures !filters[j].matches(url) {
          if j > 0 { assert filters[j] == rest[j - 1]; }
        }
      }
    }
  }

  /** The filters, and the decisions kept. */
  datatype State = State(filters: seq<Filter>, kept: map<string, Mode>)

  datatype Op =
    | Lookup(url: string, room: bool, evicted: set<string>)
    | Reload(filters: seq<Filter>, clears: bool)
    | Expire(urls: set<string>)

  function Answer(s: State, url: string): Mode {
    if s.filters == [] || url == "" then Unknown
    else if url in s.kept then s.kept[url]
    else FirstMatch(s.filters, url)
  }

  function Step(s: State, op: Op): State {
    match op
    case Lookup(url, room, evicted) =>
      if s.filters == [] || url == "" || url in s.kept || !room then s
      else s.(kept := (s.kept - evicted)[url := FirstMatch(s.filters, url)])
    case Reload(filters, clears) => State(filters, if clears then map[] else s.kept)
    case Expire(urls) => s.(kept := s.kept - urls)
  }

  // ---------------------------------------------------------------- the object

  class Filters {
    var filters: seq<Filter>
    var cache: map<string, string>

    function Abs(): State
      reads this
    {
      State(filters, map url | url in cache :: ModeNamed(cache[url]))
    }

    constructor ()
      ensures Abs() == State([], map[])
    {
      filters, cache := [], map[];
    }

    /** Loads filters, and leaves the cache as it is. */
    method LoadConfig(filters: seq<Filter>)
      modifies this`filters
      ensures Abs() == Step(old(Abs()), Reload(filters, false))
      ensures this.filters == filters && cache == old(cache)
    {
      this.filters := filters;
    }

    method ReloadURLsConfig(filters: seq<Filter>)
      modifies this
      ensures Abs() == Step(old(Abs()), Reload(filters, true))
      ensures this.filters == filters && cache == map[]
    {
      LoadConfig(filters);
      cache := map[];
    }

    /** Entries can go at any time, when they are too old or there is no room. */
    method Evict(urls: set<string>)
      modifies this`cache
      ensures Abs() == Step(old(Abs()), Expire(urls))
    {
      cache := cache - urls;
    }

    method LookupTracingMode(url: string) returns (mode: Mode)
      ensures mode == FirstMatch(filters, url) && IsFirstMatch(filters, url, mode)
    {
      assert filters[0..] == filters;
      FirstMatchIs(filters, url);
      for i := 0 to |filters|
        invariant FirstMatch(filters, url) == FirstMatch(filters[i..], url)
      {
        assert filters[i..][1..] == filters[i + 1..];
        if filters[i].matches(url) {
          return filters[i].mode;
        }
      }
      return Unknown;
    }

    /** The decision for a URL. It is kept in the cache if there is room, and others may have to
        go for that. */
    method GetTracingMode(url: string, room: bool, evicted: set<string>) returns (mode: Mode)
      modifies this`cache
      ensures mode == Answer(old(Abs()), url)
      ensures Abs() == Step(old(Abs()), Lookup(url, room, evicted))
      ensures url !in old(cache) ==> Decides(filters, url, mode)
      ensures url in old(cache) && filters != [] && url != "" ==> mode == ModeNamed(old(cache)[url])
      ensures room && filters != [] && url != "" ==> url in cache && ModeNamed(cache[url]) == mode
      ensures cache.Keys <= old(cache).Keys + {url}
      ensures forall u | u in old(cache) && (!room || u !in evicted || url in old(cache)) ::
        u in cache && cache[u] == old(cache)[u]
    {
      if |filters| == 0 || url == "" {
        return Unknown;
      }
      if url in cache {
        return ModeNamed(cache[url]);
      }
      mode := LookupTracingMode(url);
      NamesAreDistinct(mode);
      if room {
        cache := (cache - evicted)[url := NameOf(mode)];
      }
    }
  }

  // ---------------------------------------------------------------- runs

  function After(s: State, ops: seq<Op>): State {
    if ops == [] then s else Step(After(s, ops[..|ops| - 1]), ops[|ops| - 1])
  }

  ghost predicate Fresh(s: State) {
    forall url | url in s.kept :: s.kept[url] == FirstMatch(s.filters, url)
  }

  lemma {:induction false} StaysFresh(s: State, ops: seq<Op>)
    requires Fresh(s) && forall op | op in ops && op.Reload? :: op.clears
    ensures Fresh(After(s, ops))
  {
    if ops == [] {
    } else {
      var last := ops[|ops| - 1];
      StaysFresh(s, ops[..|ops| - 1]);
      assert last in ops;
    }
  }

  /** After any lookups, evictions and reloads that clear the cache, an answer is the mode of the
      first filter that matches. */
  lemma EveryAnswerIsFirstMatch(ops: seq<Op>, url: string)
    requires forall op | op in ops && op.Reload? :: op.clears
    ensures var s := After(State([], map[]), ops); Decides(s.filters, url, Answer(s, url))
  {
    var s := After(State([], map[]), ops);
    StaysFresh(State([], map[]), ops);
    FirstMatchIs(s.filters, url);
  }

  /** Reloading without clearing is right for a URL just when what is kept for it, if anything,
      is what the new filters say. */
  lemma ReloadAnswersIff(s: State, filters: seq<Filter>, url: string)
    requires url != "" && filters != []
    ensures var s' := Step(s, Reload(filters, false));
      Decides(filters, url, Answer(s', url)) <==> (url in s.kept ==> s.kept[url] == FirstMatch(filters, url))
  {
    FirstMatchIs(filters, url);
    if url in s.kept && IsFirstMatch(filters, url, s.kept[url]) {
      DecisionIsUnique(filters, url, s.kept[url], FirstMatch(filters, url));
    }
  }
}
