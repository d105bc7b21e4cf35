/** `get_filter_options`: the distinct values a session's entries take in each
    field a filter can constrain. */
module Options {
  import opened Models
  import opened Filter

  /** The values a field takes over a list of entries. `field` yields the
      entry's value, or `None` when the entry has none (only the object name
      can be absent). */
  function Collect<T(==)>(es: seq<Entry>, field: Entry -> Option<T>): set<T>
  {
    if |es| == 0 then {}
    else
      var rest := Collect(es[..|es| - 1], field);
      match field(es[|es| - 1])
      case None => rest
      case Some(x) => rest + {x}
  }

  /** A value is collected exactly when some entry has it. */
  lemma {:induction false} CollectMembership<T>(es: seq<Entry>, field: Entry -> Option<T>, x: T)
    ensures x in Collect(es, field) <==> exists i :: 0 <= i < |es| && field(es[i]) == Some(x)
  {
    if |es| > 0 {
      var init := es[..|es| - 1];
      CollectMembership(init, field, x);
      assert forall i :: 0 <= i < |init| ==> init[i] == es[i];
    }
  }

  function CategoryOf(e: Entry): Option<string> { Some(e.category) }

  /** Levels are offered by the rendering the level filter compares with. */
  function LevelOf(e: Entry): Option<string> { Some(LevelName(e.level)) }

  function PidOf(e: Entry): Option<U32> { Some(e.pid) }

  function ThreadOf(e: Entry): Option<string> { Some(e.thread) }

  function ObjectOf(e: Entry): Option<string> { e.objectName }

  /** `xs` lists the elements of `s`, each exactly once, in some order. */
  predicate Lists<T(==)>(xs: seq<T>, s: set<T>)
  {
    && (forall x :: x in xs ==> x in s)
    && (forall x :: x in s ==> x in xs)
    && (forall i, j :: 0 <= i < j < |xs| ==> xs[i] != xs[j])
  }

  /** `set.into_iter().collect::<Vec<_>>()`: every element once, in an order
      the hash set chooses. */
  method ListOf<T(==)>(s: set<T>) returns (r: seq<T>)
    ensures Lists(r, s)
  {
    r := [];
    var rest := s;
    while rest != {}
      invariant forall x :: x in s <==> x in r || x in rest
      invariant forall x :: x in r ==> x !in rest
      invariant forall i, j :: 0 <= i < j < |r| ==> r[i] != r[j]
      decreases |rest|
    {
      var x :| x in rest;
      r := r + [x];
      rest := rest - {x};
    }
  }

  /** `get_filter_options`. `query` is the raw query string as a map. A
      missing `session_id` is a BAD_REQUEST; an unknown session and a session
      without entries are NOT_FOUND; otherwise each list holds the distinct
      values of its field, objects only from entries that have one. */
  method GetFilterOptions(sessions: SessionTable, query: map<string, string>)
    returns (r: Reply<FilterOptionsResponse>)
    ensures "session_id" !in query ==>
      r == Rejected(ApiError(BadRequest, "Missing session_id parameter"))
    ensures "session_id" in query && query["session_id"] !in sessions ==>
      r == Rejected(ApiError(NotFound, "Session not found: " + query["session_id"]
        + ". This may occur if the log file is still being processed or if parsing failed."))
    ensures ("session_id" in query && query["session_id"] in sessions
      && |sessions[query["session_id"]]| == 0) ==>
      r == Rejected(ApiError(NotFound, "No log entries found for session: " + query["session_id"]
        + ". The log file may be empty or in an incorrect format."))
    ensures ("session_id" in query && query["session_id"] in sessions
      && |sessions[query["session_id"]]| > 0) ==>
      var entries := sessions[query["session_id"]];
      && r.Json?
      && Lists(r.value.categories, Collect(entries, CategoryOf))
      && Lists(r.value.levels, Collect(entries, LevelOf))
      && Lists(r.value.pids, Collect(entries, PidOf))
      && Lists(r.value.threads, Collect(entries, ThreadOf))
      && Lists(r.value.objects, Collect(entries, ObjectOf))
  {
    if "session_id" !in query {
      return Rejected(ApiError(BadRequest, "Missing session_id parameter"));
    }
    var sessionId := query["session_id"];
    if sessionId !in sessions {
      return Rejected(ApiError(NotFound, "Session not found: " + sessionId
        + ". This may occur if the log file is still being processed or if parsing failed."));
    }
    var entries := sessions[sessionId];
    if |entries| == 0 {
      return Rejected(ApiError(NotFound, "No log entries found for session: " + sessionId
        + ". The log file may be empty or in an incorrect format."));
    }
    var categories: set<string> := {};
    var levels: set<string> := {};
    var pids: set<U32> := {};
    var threads: set<string> := {};
    var objects: set<string> := {};
    for i := 0 to |entries|
      invariant categories == Collect(entries[..i], CategoryOf)
      invariant levels == Collect(entries[..i], LevelOf)
      invariant pids == Collect(entries[..i], PidOf)
      invariant threads == Collect(entries[..i], ThreadOf)
      invariant objects == Collect(entries[..i], ObjectOf)
    {
      var entry := entries[i];
      assert entries[..i + 1][..i] == entries[..i];
      categories := categories + {entry.category};
      levels := levels + {LevelName(entry.level)};
      pids := pids + {entry.pid};
      threads := threads + {entry.thread};
      if entry.objectName.Some? {
        objects := objects + {entry.objectName.value};
      }
    }
    assert entries[..|entries|] == entries;
    var categoryList := ListOf(categories);
    var levelList := ListOf(levels);
    var pidList := ListOf(pids);
    var threadList := ListOf(threads);
    var objectList := ListOf(objects);
    return Json(FilterOptionsResponse(categoryList, levelList, pidList, threadList, objectList));
  }

  /** The filter that sets no criterion (the defaults of a bare request). */
  function Unfiltered(sessionId: string): (f: LogFilter)
    ensures NoCriteria(f)
  {
    LogFilter(sessionId, None, [], None, None, None, None, None, 1, 100, None, None, false)
  }

  /** An entry the filter lets through leaves the result non-empty. */
  lemma SomePasses(entries: seq<Entry>, f: LogFilter, rx: Regex, i: nat)
    requires i < |entries| && Passes(f, rx, entries[i])
    ensures |Filtered(entries, f, rx)| > 0
  {
    FilteredMembership(entries, f, rx, entries[i]);
  }

  /** Every offered level, used as the only criterion, selects at least one entry. */
  lemma LevelOptionSelects(entries: seq<Entry>, name: string, rx: Regex)
    requires name in Collect(entries, LevelOf)
    ensures |Filtered(entries, Unfiltered("").(level := Some(name)), rx)| > 0
  {
    CollectMembership(entries, LevelOf, name);
    var i :| 0 <= i < |entries| && LevelOf(entries[i]) == Some(name);
    SomePasses(entries, Unfiltered("").(level := Some(name)), rx, i);
  }

  /** Every offered category, used as the only criterion, selects at least one entry. */
  lemma CategoryOptionSelects(entries: seq<Entry>, cat: string, rx: Regex)
    requires cat in Collect(entries, CategoryOf)
    ensures |Filtered(entries, Unfiltered("").(categories := [cat]), rx)| > 0
  {
    CollectMembership(entries, CategoryOf, cat);
    var i :| 0 <= i < |entries| && CategoryOf(entries[i]) == Some(cat);
    var f := Unfiltered("").(categories := [cat]);
    assert CategoryEq(f.categories[0], entries[i].category);
    SomePasses(entries, f, rx, i);
  }

  /** Every offered process id, used as the only criterion, selects at least one entry. */
  lemma PidOptionSelects(entries: seq<Entry>, pid: U32, rx: Regex)
    requires pid in Collect(entries, PidOf)
    ensures |Filtered(entries, Unfiltered("").(pid := Some(pid)), rx)| > 0
  {
    CollectMembership(entries, PidOf, pid);
    var i :| 0 <= i < |entries| && PidOf(entries[i]) == Some(pid);
    SomePasses(entries, Unfiltered("").(pid := Some(pid)), rx, i);
  }

  /** Every offered thread, used as the only criterion, selects at least one entry. */
  lemma ThreadOptionSelects(entries: seq<Entry>, thread: string, rx: Regex)
    requires thread in Collect(entries, ThreadOf)
    ensures |Filtered(entries, Unfiltered("").(thread := Some(thread)), rx)| > 0
  {
    CollectMembership(entries, ThreadOf, thread);
    var i :| 0 <= i < |entries| && ThreadOf(entries[i]) == Some(thread);
    SomePasses(entries, Unfiltered("").(thread := Some(thread)), rx, i);
  }

  /** Every offered object, used as the only criterion, selects at least one
      entry; entries without an object contribute no option. */
  lemma ObjectOptionSelects(entries: seq<Entry>, obj: string, rx: Regex)
    requires obj in Collect(entries, ObjectOf)
    ensures |Filtered(entries, Unfiltered("").(objectName := Some(obj)), rx)| > 0
  {
    CollectMembership(entries, ObjectOf, obj);
    var i :| 0 <= i < |entries| && ObjectOf(entries[i]) == Some(obj);
    SomePasses(entries, Unfiltered("").(objectName := Some(obj)), rx, i);
  }

  /** The names of the eight levels. */
  function AllLevelNames(): set<string>
  {
    {"Error", "Warning", "Fixme", "Info", "Debug", "Log", "Trace", "Memdump"}
  }

  /** At most the eight level names are offered. */
  lemma LevelOptionsAtMostEight(entries: seq<Entry>)
    ensures Collect(entries, LevelOf) <= AllLevelNames()
    ensures |Collect(entries, LevelOf)| <= 8
  {
    var s := Collect(entries, LevelOf);
    forall x | x in s
      ensures x in AllLevelNames()
    {
      CollectMembership(entries, LevelOf, x);
      var i :| 0 <= i < |entries| && LevelOf(entries[i]) == Some(x);
      assert x == LevelName(entries[i].level);
      match entries[i].level
      case Error =>
      case Warning =>
      case Fixme =>
      case Info =>
      case Debug =>
      case Log =>
      case Trace =>
      case Memdump =>
    }
    SubsetCardinality(s, AllLevelNames());
  }

  lemma {:induction false} SubsetCardinality<T>(a: set<T>, b: set<T>)
    requires a <= b
    ensures |a| <= |b|
  {
    if a != {} {
      var x :| x in a;
      SubsetCardinality(a - {x}, b - {x});
    }
  }
}
