/** The per-entry filter predicate that `get_logs` and `get_timeline` both
    apply (the closure is duplicated in the two handlers with the same
    meaning), and the order-preserving selection it induces on a session's
    entries. */
module Filter {
  import opened Models
  import opened Text

  /** The regular-expression engine, left abstract: whether a pattern
      compiles (`Regex::new(p).is_ok()`), and whether a compiled pattern
      matches somewhere in a text (`is_match`). */
  datatype Regex = Regex(compiles: string -> bool, isMatch: (string, string) -> bool)

  /** The level criterion: the entry's level, rendered by `LevelName`, equals
      the given string exactly. */
  predicate LevelOk(f: LogFilter, e: Entry)
  {
    f.level.None? || LevelName(e.level) == f.level.value
  }

  /** One listed category accepts an entry category when the two are equal,
      or equal once both are trimmed. */
  predicate CategoryEq(cat: string, entryCategory: string)
  {
    cat == entryCategory || Trim(cat) == Trim(entryCategory)
  }

  /** A non-empty category list accepts an entry when some listed category
      does; an empty list accepts every entry. */
  predicate CategoriesOk(f: LogFilter, e: Entry)
  {
    |f.categories| == 0
    || exists i :: 0 <= i < |f.categories| && CategoryEq(f.categories[i], e.category)
  }

  /** A regular-expression criterion: absent, or not compiling, restricts
      nothing; otherwise the pattern must match the text. */
  predicate RegexOk(rx: Regex, pattern: Option<string>, text: string)
  {
    pattern.None? || !rx.compiles(pattern.value) || rx.isMatch(pattern.value, text)
  }

  predicate PidOk(f: LogFilter, e: Entry)
  {
    f.pid.None? || e.pid == f.pid.value
  }

  predicate ThreadOk(f: LogFilter, e: Entry)
  {
    f.thread.None? || e.thread == f.thread.value
  }

  /** The object criterion: an entry without an object never passes a given
      object criterion; one with an object passes when the names are equal. */
  predicate ObjectOk(f: LogFilter, e: Entry)
  {
    f.objectName.None? || (e.objectName.Some? && e.objectName.value == f.objectName.value)
  }

  /** An entry passes a filter when it meets every present criterion. The
      time-range fields of `LogFilter` take no part: no handler applies them. */
  predicate Passes(f: LogFilter, rx: Regex, e: Entry)
  {
    && LevelOk(f, e)
    && CategoriesOk(f, e)
    && RegexOk(rx, f.messageRegex, e.message)
    && PidOk(f, e)
    && ThreadOk(f, e)
    && ObjectOk(f, e)
    && RegexOk(rx, f.functionRegex, e.functionName)
  }

  /** A filter that sets no criterion. */
  predicate NoCriteria(f: LogFilter)
  {
    && f.level.None? && |f.categories| == 0 && f.messageRegex.None? && f.pid.None?
    && f.thread.None? && f.objectName.None? && f.functionRegex.None?
  }

  /** The category loop of the closure: walk the list, stop at the first
      category that equals the entry's category exactly, byte-wise or after
      trimming. (On UTF-8 strings byte-wise equality is string equality.) */
  method CategoryFound(categories: seq<string>, entryCategory: string) returns (found: bool)
    ensures found <==> exists i :: 0 <= i < |categories| && CategoryEq(categories[i], entryCategory)
  {
    found := false;
    var i := 0;
    while i < |categories|
      invariant 0 <= i <= |categories|
      invariant forall j :: 0 <= j < i ==> !CategoryEq(categories[j], entryCategory)
    {
      var cat := categories[i];
      var stringEq := cat == entryCategory;
      var trimEq := Trim(cat) == Trim(entryCategory);
      if stringEq || trimEq {
        found := true;
        break;
      }
      i := i + 1;
    }
  }

  /** The filter closure, with its early returns in the source's order. */
  method EntryPasses(f: LogFilter, rx: Regex, e: Entry) returns (pass: bool)
    ensures pass <==> Passes(f, rx, e)
  {
    if f.level.Some? && LevelName(e.level) != f.level.value {
      return false;
    }
    if |f.categories| != 0 {
      var found := CategoryFound(f.categories, e.category);
      if !found {
        return false;
      }
    }
    if f.messageRegex.Some? && rx.compiles(f.messageRegex.value)
      && !rx.isMatch(f.messageRegex.value, e.message)
    {
      return false;
    }
    if f.pid.Some? && e.pid != f.pid.value {
      return false;
    }
    if f.thread.Some? && e.thread != f.thread.value {
      return false;
    }
    if f.objectName.Some? {
      if e.objectName.Some? {
        if e.objectName.value != f.objectName.value {
          return false;
        }
      } else {
        return false;
      }
    }
    if f.functionRegex.Some? && rx.compiles(f.functionRegex.value)
      && !rx.isMatch(f.functionRegex.value, e.functionName)
    {
      return false;
    }
    return true;
  }

  /** `entries.iter().filter(..).collect()`: the entries that pass, in order. */
  function Filtered(entries: seq<Entry>, f: LogFilter, rx: Regex): (r: seq<Entry>)
    ensures |r| <= |entries|
    ensures forall i :: 0 <= i < |r| ==> Passes(f, rx, r[i])
  {
    if |entries| == 0 then []
    else
      var rest := Filtered(entries[..|entries| - 1], f, rx);
      if Passes(f, rx, entries[|entries| - 1]) then rest + [entries[|entries| - 1]] else rest
  }

  /** The filtering pass over a session's entries. */
  method FilterEntries(entries: seq<Entry>, f: LogFilter, rx: Regex) returns (out: seq<Entry>)
    ensures out == Filtered(entries, f, rx)
  {
    out := [];
    for i := 0 to |entries|
      invariant out == Filtered(entries[..i], f, rx)
    {
      var pass := EntryPasses(f, rx, entries[i]);
      assert entries[..i + 1][..i] == entries[..i];
      if pass {
        out := out + [entries[i]];
      }
    }
    assert entries[..|entries|] == entries;
  }

  /** The indices of the entries that pass, ascending. */
  function PassingIndices(entries: seq<Entry>, f: LogFilter, rx: Regex): (r: seq<nat>)
    ensures forall j :: 0 <= j < |r| ==> r[j] < |entries|
  {
    if |entries| == 0 then []
    else
      var rest := PassingIndices(entries[..|entries| - 1], f, rx);
      if Passes(f, rx, entries[|entries| - 1]) then rest + [|entries| - 1] else rest
  }

  /** An index is listed if and only if its entry passes. */
  lemma {:induction false} PassingIndicesMembership(entries: seq<Entry>, f: LogFilter, rx: Regex, i: nat)
    requires i < |entries|
    ensures i in PassingIndices(entries, f, rx) <==> Passes(f, rx, entries[i])
  {
    var n := |entries| - 1;
    var init := entries[..n];
    var idx0 := PassingIndices(init, f, rx);
    assert i in PassingIndices(entries, f, rx) <==> i in idx0 || (i == n && Passes(f, rx, entries[n]));
    if i < n {
      PassingIndicesMembership(init, f, rx, i);
      assert init[i] == entries[i];
    }
  }

  /** Each index is smaller than every later one. */
  predicate IncreasingIndices(idx: seq<nat>)
  {
    forall j, k :: 0 <= j < k < |idx| ==> idx[j] < idx[k]
  }

  /** The listed indices are strictly increasing. */
  lemma {:induction false} PassingIndicesAscending(entries: seq<Entry>, f: LogFilter, rx: Regex)
    ensures IncreasingIndices(PassingIndices(entries, f, rx))
  {
    if |entries| > 0 {
      var n := |entries| - 1;
      var idx0 := PassingIndices(entries[..n], f, rx);
      PassingIndicesAscending(entries[..n], f, rx);
      if Passes(f, rx, entries[n]) {
        var idx := PassingIndices(entries, f, rx);
        assert idx == idx0 + [n];
        forall j, k | 0 <= j < k < |idx|
          ensures idx[j] < idx[k]
        {
          assert idx[j] == idx0[j];
          if k < |idx0| {
            assert idx[k] == idx0[k];
          } else {
            assert idx0[j] < |entries[..n]|;
          }
        }
      }
    }
  }

  /** The filtered result holds, position by position, the entries at the
      listed indices. */
  lemma {:induction false} FilteredAtIndices(entries: seq<Entry>, f: LogFilter, rx: Regex)
    ensures var idx := PassingIndices(entries, f, rx);
      && |idx| == |Filtered(entries, f, rx)|
      && (forall j :: 0 <= j < |idx| ==> Filtered(entries, f, rx)[j] == entries[idx[j]])
  {
    if |entries| > 0 {
      var n := |entries| - 1;
      var init := entries[..n];
      var idx0 := PassingIndices(init, f, rx);
      var r0 := Filtered(init, f, rx);
      var idx := PassingIndices(entries, f, rx);
      var r := Filtered(entries, f, rx);
      FilteredAtIndices(init, f, rx);
      if Passes(f, rx, entries[n]) {
        assert idx == idx0 + [n];
        assert r == r0 + [entries[n]];
        forall j | 0 <= j < |idx|
          ensures r[j] == entries[idx[j]]
        {
          if j < |idx0| {
            assert r[j] == r0[j] && idx[j] == idx0[j];
            assert init[idx0[j]] == entries[idx0[j]];
          }
        }
      } else {
        assert idx == idx0;
        assert r == r0;
        forall j | 0 <= j < |idx|
          ensures r[j] == entries[idx[j]]
        {
          assert init[idx0[j]] == entries[idx0[j]];
        }
      }
    }
  }

  /** The filtered result is exactly the order-preserving subsequence of the
      entries that pass: it picks the entries at a strictly increasing list of
      indices, and an index is picked if and only if its entry passes. */
  lemma FilteredIsSelection(entries: seq<Entry>, f: LogFilter, rx: Regex)
    ensures var idx := PassingIndices(entries, f, rx);
      && |idx| == |Filtered(entries, f, rx)|
      && (forall j :: 0 <= j < |idx| ==> Filtered(entries, f, rx)[j] == entries[idx[j]])
      && (forall j, k :: 0 <= j < k < |idx| ==> idx[j] < idx[k])
      && (forall i :: 0 <= i < |entries| ==> (i in idx <==> Passes(f, rx, entries[i])))
  {
    FilteredAtIndices(entries, f, rx);
    PassingIndicesAscending(entries, f, rx);
    forall i | 0 <= i < |entries|
      ensures i in PassingIndices(entries, f, rx) <==> Passes(f, rx, entries[i])
    {
      PassingIndicesMembership(entries, f, rx, i);
    }
  }

  /** An entry is in the result exactly when it is in the input and passes. */
  lemma {:induction false} FilteredMembership(entries: seq<Entry>, f: LogFilter, rx: Regex, e: Entry)
    ensures e in Filtered(entries, f, rx) <==> e in entries && Passes(f, rx, e)
  {
    if |entries| > 0 {
      var init := entries[..|entries| - 1];
      FilteredMembership(init, f, rx, e);
      assert entries == init + [entries[|entries| - 1]];
    }
  }

  /** Filtering distributes over concatenation. */
  lemma {:induction false} FilteredConcat(s: seq<Entry>, t: seq<Entry>, f: LogFilter, rx: Regex)
    ensures Filtered(s + t, f, rx) == Filtered(s, f, rx) + Filtered(t, f, rx)
  {
    if |t| == 0 {
      assert s + t == s;
    } else {
      var t0 := t[..|t| - 1];
      FilteredConcat(s, t0, f, rx);
      assert (s + t)[..|s + t| - 1] == s + t0;
    }
  }

  /** Applying the same filter twice gives the same result as applying it once. */
  lemma {:induction false} FilteredIdempotent(entries: seq<Entry>, f: LogFilter, rx: Regex)
    ensures Filtered(Filtered(entries, f, rx), f, rx) == Filtered(entries, f, rx)
  {
    if |entries| > 0 {
      var init := entries[..|entries| - 1];
      var e := entries[|entries| - 1];
      FilteredIdempotent(init, f, rx);
      if Passes(f, rx, e) {
        FilteredConcat(Filtered(init, f, rx), [e], f, rx);
        assert [e][..0] == [];
      }
    }
  }

  /** A filter with no criteria returns every entry, in order. */
  lemma {:induction false} FilteredNoCriteria(entries: seq<Entry>, f: LogFilter, rx: Regex)
    requires NoCriteria(f)
    ensures Filtered(entries, f, rx) == entries
  {
    if |entries| > 0 {
      FilteredNoCriteria(entries[..|entries| - 1], f, rx);
    }
  }

  /** A message pattern that does not compile filters nothing out: the result
      is the one obtained without a message criterion. */
  lemma {:induction false} UncompilableMessageRegexIgnored(entries: seq<Entry>, f: LogFilter, rx: Regex)
    requires f.messageRegex.Some? && !rx.compiles(f.messageRegex.value)
    ensures Filtered(entries, f, rx) == Filtered(entries, f.(messageRegex := None), rx)
  {
    if |entries| > 0 {
      UncompilableMessageRegexIgnored(entries[..|entries| - 1], f, rx);
    }
  }

  /** Likewise for a function pattern that does not compile. */
  lemma {:induction false} UncompilableFunctionRegexIgnored(entries: seq<Entry>, f: LogFilter, rx: Regex)
    requires f.functionRegex.Some? && !rx.compiles(f.functionRegex.value)
    ensures Filtered(entries, f, rx) == Filtered(entries, f.(functionRegex := None), rx)
  {
    if |entries| > 0 {
      UncompilableFunctionRegexIgnored(entries[..|entries| - 1], f, rx);
    }
  }

  /** A level criterion taken from a rendered level name selects exactly the
      entries of that level: the name the filter compares is the name the
      serialized entry and the filter-options list carry. */
  lemma LevelCriterionSelectsLevel(f: LogFilter, e: Entry, l: Level, displayClock: U64 -> string)
    requires f.level == Some(LevelName(l))
    ensures LevelOk(f, e) <==> e.level == l
    ensures LevelOk(f, e) <==> FromEntry(e, displayClock).level == LevelName(l)
  {
    LevelNameInjective(e.level, l);
  }

  /** Level names are matched case-sensitively against the variant names, so
      the upper-case tag of the log line itself selects nothing. */
  lemma UpperCaseLevelSelectsNothing(f: LogFilter, e: Entry)
    requires f.level == Some("DEBUG")
    ensures !LevelOk(f, e)
  {
  }

  /** Trimmed equality is the single rule behind the category criterion: the
      exact comparison the source makes first adds nothing to it. */
  lemma CategoryEqIsTrimEq(cat: string, entryCategory: string)
    ensures CategoryEq(cat, entryCategory) <==> Trim(cat) == Trim(entryCategory)
  {
  }
}
