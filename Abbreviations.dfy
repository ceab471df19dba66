/** `services/abbreviation_service.py`: a cache of company-name abbreviations
    (`"Ltd."` to `"Limited"`), filled on demand by a language model, and the
    name rewriting built on it.

    The cache is the service's one mutable field, an insertion-ordered map from
    abbreviation to expansion. The language model is a parameter `llm` giving,
    for an abbreviation, either the text it answers or `None` when the call
    fails. Writing `abbreviations.json` and sleeping between model calls are
    recorded in ghost fields: `saved` holds every map written to the file, in
    order, `sleeps` counts the pauses, and `queries` lists the abbreviations
    the model was asked about. */
module Abbreviations {
  import opened Wrappers
  import opened Text
  import opened Dicts

  // ---------------------------------------------------------------------
  // Specification functions
  // ---------------------------------------------------------------------

  /** The tokens of `words` that end in a full stop. */
  function DottedWords(words: seq<string>): set<string> {
    set w | w in words && EndsWith(w, ".")
  }

  /** One more word adds itself when it ends in a full stop. */
  lemma DottedWordsAppend(words: seq<string>, w: string)
    ensures DottedWords(words + [w]) == DottedWords(words) + (if EndsWith(w, ".") then {w} else {})
  {
    assert forall x :: x in words + [w] <==> x in words || x == w;
  }

  /** The abbreviations `extract_abbreviations` collects from `names`, name by
      name. */
  function AbbreviationsIn(names: seq<string>): set<string>
    decreases |names|
  {
    if names == [] then {}
    else
      var last := names[|names| - 1];
      AbbreviationsIn(names[..|names| - 1]) + (if last == "" then {} else DottedWords(Split(last)))
  }

  /** One step of the rewriting loop: an entry with a non-empty expansion whose
      key occurs in the name replaces every occurrence of that key. */
  function Rewrite(name: string, entry: (string, string)): string {
    if Contains(name, entry.0) && entry.1 != "" then ReplaceAll(name, entry.0, entry.1) else name
  }

  /** The entries applied to `name` one after another, in map order. */
  function ApplyEntries(entries: Dict<string, string>, name: string): string
    decreases |entries|
  {
    if entries == [] then name else ApplyEntries(entries[1..], Rewrite(name, entries[0]))
  }

  /** What `normalize_company_name` returns for `name` under the map `entries`. */
  function Normalize(entries: Dict<string, string>, name: string): string {
    if name == "" then name else ApplyEntries(entries, name)
  }

  /** The expansion cached for `abbr`, when there is one the cache will serve:
      an entry holding `""` does not count. */
  function CachedExpansion(entries: Dict<string, string>, abbr: string): Option<string> {
    match Get(entries, abbr)
    case Some(v) => if v != "" then Some(v) else None
    case None => None
  }

  /** What the map holds for `abbr` once it has been resolved: the cached
      expansion, else the model's stripped answer, else `""`. */
  function Resolution(entries: Dict<string, string>, abbr: string, llm: string -> Option<string>): string {
    match CachedExpansion(entries, abbr)
    case Some(v) => v
    case None =>
      match llm(abbr)
      case Some(text) => Strip(text)
      case None => ""
  }

  datatype ExpansionError = ExpansionFailed(abbreviation: string)

  /** How many of the abbreviations in `qs` the model answered. */
  function Answered(qs: seq<string>, llm: string -> Option<string>): nat
    decreases |qs|
  {
    if qs == [] then 0
    else Answered(qs[..|qs| - 1], llm) + (if llm(qs[|qs| - 1]).Some? then 1 else 0)
  }

  /** `asked` extends `before` by exactly the abbreviations of `done` that
      `start` holds no usable expansion for, each asked once. */
  ghost predicate AskedAbout(start: Dict<string, string>, done: set<string>, before: seq<string>, asked: seq<string>) {
    && |asked| >= |before| && asked[..|before|] == before
    && (forall q :: q in asked[|before|..] <==> q in done && CachedExpansion(start, q).None?)
    && (forall i, j :: |before| <= i < j < |asked| ==> asked[i] != asked[j])
  }

  /** After resolving the abbreviations in `done`, starting from the map
      `start`, each of them holds its resolution and every other key keeps its
      lookup in `start`. */
  ghost predicate ResolvedUpTo(start: Dict<string, string>, done: set<string>, current: Dict<string, string>,
                               llm: string -> Option<string>) {
    && (forall a {:trigger Get(current, a)} :: a in done ==> Get(current, a) == Some(Resolution(start, a, llm)))
    && (forall k {:trigger Get(current, k)} :: k !in done ==> Get(current, k) == Get(start, k))
  }

  /** Resolving one more abbreviation `a` on a map that already agrees with
      `start` keeps `ResolvedUpTo` with `a` added. */
  lemma ResolvedStep(start: Dict<string, string>, done: set<string>, before: Dict<string, string>,
                     after: Dict<string, string>, a: string, llm: string -> Option<string>)
    requires ResolvedUpTo(start, done, before, llm) && a !in done
    requires forall k :: Get(after, k) == if k == a then Some(Resolution(before, a, llm)) else Get(before, k)
    ensures ResolvedUpTo(start, done + {a}, after, llm)
  {
    assert Get(before, a) == Get(start, a);
    assert Resolution(before, a, llm) == Resolution(start, a, llm);
  }

  /** Resolving one more abbreviation adds it to the questions exactly when it
      had no usable cached expansion. */
  lemma AskedAboutStep(start: Dict<string, string>, done: set<string>, before: seq<string>, asked: seq<string>, a: string)
    requires AskedAbout(start, done, before, asked) && a !in done
    ensures CachedExpansion(start, a).None? ==> AskedAbout(start, done + {a}, before, asked + [a])
    ensures CachedExpansion(start, a).Some? ==> AskedAbout(start, done + {a}, before, asked)
  {
    var now := asked + [a];
    assert now[..|before|] == before;
    assert now[|before|..] == asked[|before|..] + [a];
  }

  /** When every abbreviation of `done` had a usable cached expansion, nothing
      was asked. */
  lemma NothingAsked(start: Dict<string, string>, done: set<string>, before: seq<string>, asked: seq<string>)
    requires AskedAbout(start, done, before, asked)
    ensures (forall a :: a in done ==> CachedExpansion(start, a).Some?) ==> asked == before
  {
    if (forall a :: a in done ==> CachedExpansion(start, a).Some?) && asked != before {
      assert asked == asked[..|before|] + asked[|before|..];
      assert asked[|before|..][0] in asked[|before|..];
    }
  }

  /** One save per question since `before`, the last save being `current`. */
  ghost predicate SavedEach(savedBefore: seq<Dict<string, string>>, saved: seq<Dict<string, string>>,
                            before: seq<string>, asked: seq<string>, current: Dict<string, string>) {
    && |saved| >= |savedBefore| && saved[..|savedBefore|] == savedBefore
    && |asked| >= |before|
    && |saved| - |savedBefore| == |asked| - |before|
    && (saved != savedBefore ==> saved[|saved| - 1] == current)
  }

  /** A question answered or failed is followed by one save of the new map. */
  lemma SavedEachStep(savedBefore: seq<Dict<string, string>>, saved: seq<Dict<string, string>>,
                      before: seq<string>, asked: seq<string>, current: Dict<string, string>,
                      a: string, next: Dict<string, string>)
    requires SavedEach(savedBefore, saved, before, asked, current)
    ensures SavedEach(savedBefore, saved + [next], before, asked + [a], next)
  {
    assert (saved + [next])[..|savedBefore|] == saved[..|savedBefore|];
  }

  /** The answered count of one more question. */
  lemma AnsweredStep(before: seq<string>, asked: seq<string>, a: string, llm: string -> Option<string>)
    requires |asked| >= |before|
    ensures Answered((asked + [a])[|before|..], llm) == Answered(asked[|before|..], llm) + (if llm(a).Some? then 1 else 0)
  {
    assert (asked + [a])[|before|..] == asked[|before|..] + [a];
    assert (asked[|before|..] + [a])[..|asked| - |before|] == asked[|before|..];
  }

  // ---------------------------------------------------------------------
  // The service
  // ---------------------------------------------------------------------

  /** The service's state as a value: the map, the saves so far, the
      questions put to the model so far and the pauses taken so far. */
  datatype Snapshot = Snapshot(entries: Dict<string, string>, saved: seq<Dict<string, string>>,
                               queries: seq<string>, sleeps: nat)

  /** Resolving the abbreviations in `done` one at a time took the service
      from `start` to `now`: each is resolved, nothing else changed, every
      old key kept its position (new ones come after them), the model
      was asked exactly about those without a usable cached expansion, once
      each, every question was followed by a save, the last save holds the
      current map, and every answer by a pause. */
  ghost predicate Progress(start: Snapshot, done: set<string>, now: Snapshot, llm: string -> Option<string>) {
    && ResolvedUpTo(start.entries, done, now.entries, llm)
    && KeysKept(start.entries, now.entries)
    && AskedAbout(start.entries, done, start.queries, now.queries)
    && SavedEach(start.saved, now.saved, start.queries, now.queries, now.entries)
    && now.sleeps == start.sleeps + Answered(now.queries[|start.queries|..], llm)
    && (now.queries == start.queries ==> now == start)
  }

  /** Before the first abbreviation, nothing has happened. */
  lemma ProgressStart(start: Snapshot, llm: string -> Option<string>)
    ensures Progress(start, {}, start, llm)
  {
    assert start.queries[|start.queries|..] == [];
  }

  /** What `Progress` says once every abbreviation has been resolved. */
  lemma ProgressDone(start: Snapshot, done: set<string>, now: Snapshot, llm: string -> Option<string>)
    requires Progress(start, done, now, llm)
    ensures forall a :: a in done ==> Get(now.entries, a) == Some(Resolution(start.entries, a, llm))
    ensures forall k :: k !in done ==> Get(now.entries, k) == Get(start.entries, k)
    ensures (forall a :: a in done ==> CachedExpansion(start.entries, a).Some?) ==> now == start
  {
    NothingAsked(start.entries, done, start.queries, now.queries);
  }

  /** One call of `expand_abbreviation` on an abbreviation not yet resolved
      keeps `Progress`, with that abbreviation added. */
  lemma ProgressStep(start: Snapshot, done: set<string>, pre: Snapshot, post: Snapshot, a: string,
                     llm: string -> Option<string>)
    requires Progress(start, done, pre, llm) && a !in done
    requires CachedExpansion(pre.entries, a).Some? ==> post == pre
    requires CachedExpansion(pre.entries, a).None? ==>
               && post.saved == pre.saved + [post.entries]
               && post.queries == pre.queries + [a]
               && post.sleeps == pre.sleeps + (if llm(a).Some? then 1 else 0)
    requires forall k :: Get(post.entries, k) ==
               if k == a then Some(Resolution(pre.entries, a, llm)) else Get(pre.entries, k)
    requires KeysKept(pre.entries, post.entries)
    ensures Progress(start, done + {a}, post, llm)
  {
    assert CachedExpansion(pre.entries, a) == CachedExpansion(start.entries, a);
    ResolvedStep(start.entries, done, pre.entries, post.entries, a, llm);
    AskedAboutStep(start.entries, done, start.queries, pre.queries, a);
    if CachedExpansion(start.entries, a).None? {
      SavedEachStep(start.saved, pre.saved, start.queries, pre.queries, pre.entries, a, post.entries);
      AnsweredStep(start.queries, pre.queries, a, llm);
    }
  }

  class AbbreviationService {
    var entries: Dict<string, string>
    ghost var saved: seq<Dict<string, string>>
    ghost var sleeps: nat
    ghost var queries: seq<string>

    ghost predicate Valid()
      reads this
    {
      UniqueKeys(entries)
    }

    /** `__init__` with `load_existing_abbreviations`: the map stored in the
        file, or an empty map when there is none or it cannot be read. */
    constructor(stored: Option<Dict<string, string>>)
      requires stored.Some? ==> UniqueKeys(stored.value)
      ensures Valid()
      ensures entries == if stored.Some? then stored.value else []
      ensures saved == [] && sleeps == 0 && queries == []
    {
      entries := if stored.Some? then stored.value else [];
      saved := [];
      sleeps := 0;
      queries := [];
    }

    /** `extract_abbreviations`: every whitespace-separated token ending in `.`
        of every non-empty name. */
    method ExtractAbbreviations(names: seq<string>) returns (abbrs: set<string>)
      ensures abbrs == AbbreviationsIn(names)
    {
      abbrs := {};
      for i := 0 to |names|
        invariant abbrs == AbbreviationsIn(names[..i])
      {
        assert names[..i + 1][..i] == names[..i];
        var name := names[i];
        if name == "" {
          continue;
        }
        var words := Split(name);
        ghost var before := abbrs;
        for j := 0 to |words|
          invariant abbrs == before + DottedWords(words[..j])
        {
          assert words[..j + 1] == words[..j] + [words[j]];
          DottedWordsAppend(words[..j], words[j]);
          if EndsWith(words[j], ".") {
            abbrs := abbrs + {words[j]};
          }
        }
        assert words[..|words|] == words;
      }
      assert names[..|names|] == names;
    }

    /** `expand_abbreviation`. A non-empty cached expansion is returned without
        asking the model and without touching the map. Otherwise the model is
        asked; its stripped answer is stored, saved and returned after a pause,
        and a failure stores and saves `""` and is reported. */
    method ExpandAbbreviation(abbr: string, llm: string -> Option<string>)
      returns (r: Result<string, ExpansionError>)
      requires Valid()
      modifies this
      ensures Valid()
      ensures old(CachedExpansion(entries, abbr)).Some? ==>
        && r == Success(old(CachedExpansion(entries, abbr)).value)
        && entries == old(entries) && saved == old(saved)
        && sleeps == old(sleeps) && queries == old(queries)
      ensures old(CachedExpansion(entries, abbr)).None? ==>
        && entries == old(Put(entries, abbr, Resolution(entries, abbr, llm)))
        && saved == old(saved) + [entries]
        && queries == old(queries) + [abbr]
        && (r.Success? <==> llm(abbr).Some?)
        && (r.Success? ==> r.value == Strip(llm(abbr).value) && sleeps == old(sleeps) + 1)
        && (r.Failure? ==> r.error == ExpansionFailed(abbr) && sleeps == old(sleeps))
      ensures forall k :: Get(entries, k) ==
                if k == abbr then Some(old(Resolution(entries, abbr, llm))) else old(Get(entries, k))
      ensures KeysKept(old(entries), entries)
    {
      var cached := CachedExpansion(entries, abbr);
      if cached.Some? {
        return Success(cached.value);
      }
      PutLookups(entries, abbr, Resolution(entries, abbr, llm));
      PutKeepsKeys(entries, abbr, Resolution(entries, abbr, llm));
      queries := queries + [abbr];
      match llm(abbr)
      case Some(text) =>
        var expansion := Strip(text);
        entries := Put(entries, abbr, expansion);
        saved := saved + [entries];
        sleeps := sleeps + 1;
        r := Success(expansion);
      case None =>
        entries := Put(entries, abbr, "");
        saved := saved + [entries];
        r := Failure(ExpansionFailed(abbr));
    }

    /** `expand_abbreviations_in_names`. Every abbreviation found in the names
        is resolved, in no particular order, and a failure on one does not stop
        the others; then every name is mapped to its normalised form under the
        updated map, the empty name to itself. */
    method ExpandAbbreviationsInNames(names: seq<string>, llm: string -> Option<string>)
      returns (expanded: Dict<string, string>)
      requires Valid()
      modifies this
      ensures Valid()
      ensures forall a :: a in AbbreviationsIn(names) ==>
                Get(entries, a) == Some(Resolution(old(entries), a, llm))
      ensures forall k :: k !in AbbreviationsIn(names) ==> Get(entries, k) == old(Get(entries, k))
      ensures KeysKept(old(entries), entries)
      ensures AskedAbout(old(entries), AbbreviationsIn(names), old(queries), queries)
      ensures SavedEach(old(saved), saved, old(queries), queries, entries)
      ensures sleeps == old(sleeps) + Answered(queries[|old(queries)|..], llm)
      ensures (forall a :: a in AbbreviationsIn(names) ==> CachedExpansion(old(entries), a).Some?) ==>
                entries == old(entries) && saved == old(saved) && queries == old(queries) && sleeps == old(sleeps)
      ensures UniqueKeys(expanded)
      ensures forall n :: HasKey(expanded, n) <==> n in names
      ensures forall n :: n in names ==> Get(expanded, n) == Some(Normalize(entries, n))
    {
      var abbrs := ExtractAbbreviations(names);
      ResolveAll(abbrs, llm);
      expanded := NormalizeNames(names);
    }

    /** The first loop of `expand_abbreviations_in_names`: each abbreviation
        is resolved in turn, in no particular order, a failure on one being
        caught so that the rest are still tried. The model is asked once about
        each abbreviation without a usable cached expansion and about nothing
        else; each answer or failure is saved as it comes, so the file ends up
        holding the final map; a pause follows each answered question. */
    method ResolveAll(abbrs: set<string>, llm: string -> Option<string>)
      requires Valid()
      modifies this
      ensures Valid()
      ensures forall a :: a in abbrs ==> Get(entries, a) == Some(Resolution(old(entries), a, llm))
      ensures forall k :: k !in abbrs ==> Get(entries, k) == old(Get(entries, k))
      ensures KeysKept(old(entries), entries)
      ensures AskedAbout(old(entries), abbrs, old(queries), queries)
      ensures SavedEach(old(saved), saved, old(queries), queries, entries)
      ensures sleeps == old(sleeps) + Answered(queries[|old(queries)|..], llm)
      ensures (forall a :: a in abbrs ==> CachedExpansion(old(entries), a).Some?) ==>
                entries == old(entries) && saved == old(saved) && queries == old(queries) && sleeps == old(sleeps)
    {
      ghost var start := Snapshot(entries, saved, queries, sleeps);
      ghost var done: set<string> := {};
      ProgressStart(start, llm);
      var pending := abbrs;
      while pending != {}
        invariant Valid()
        invariant done !! pending && done + pending == abbrs
        invariant Progress(start, done, Snapshot(entries, saved, queries, sleeps), llm)
        decreases |pending|
      {
        var a :| a in pending;
        ResolveOne(a, llm, start, done);
        assert (done + {a}) + (pending - {a}) == abbrs;
        done, pending := done + {a}, pending - {a};
      }
      ProgressDone(start, done, Snapshot(entries, saved, queries, sleeps), llm);
    }

    /** The body of that loop: `expand_abbreviation` on one abbreviation not
        yet resolved, its failure ignored, keeps `Progress` with it added. */
    method ResolveOne(a: string, llm: string -> Option<string>, ghost start: Snapshot, ghost done: set<string>)
      requires Valid() && a !in done
      requires Progress(start, done, Snapshot(entries, saved, queries, sleeps), llm)
      modifies this
      ensures Valid()
      ensures Progress(start, done + {a}, Snapshot(entries, saved, queries, sleeps), llm)
    {
      ghost var pre := Snapshot(entries, saved, queries, sleeps);
      var outcome := ExpandAbbreviation(a, llm);
      ProgressStep(start, done, pre, Snapshot(entries, saved, queries, sleeps), a, llm);
    }

    /** The second loop of `expand_abbreviations_in_names`: every name is
        mapped to its rewriting under the current map, the empty name to
        itself. */
    method NormalizeNames(names: seq<string>) returns (expanded: Dict<string, string>)
      ensures UniqueKeys(expanded)
      ensures forall n :: HasKey(expanded, n) <==> n in names
      ensures forall n :: n in names ==> Get(expanded, n) == Some(Normalize(entries, n))
    {
      expanded := [];
      for i := 0 to |names|
        invariant UniqueKeys(expanded)
        invariant forall n :: HasKey(expanded, n) <==> n in names[..i]
        invariant forall n :: n in names[..i] ==> Get(expanded, n) == Some(Normalize(entries, n))
      {
        assert names[..i + 1] == names[..i] + [names[i]];
        var name := names[i];
        var normalized := name;
        if name != "" {
          normalized := NormalizeCompanyName(name);
        }
        PutLookups(expanded, name, normalized);
        expanded := Put(expanded, name, normalized);
      }
      assert names[..|names|] == names;
    }

    /** `get_abbreviation_map`: the map itself, as a value, so that nothing the
        caller does with it reaches the service. */
    method GetAbbreviationMap() returns (m: Dict<string, string>)
      requires Valid()
      ensures UniqueKeys(m)
      ensures forall k :: Get(m, k) == Get(entries, k)
    {
      m := entries;
    }

    /** `add_abbreviation`: sets that one key, leaves every other entry as it
        was, and saves the map. */
    method AddAbbreviation(abbr: string, expansion: string)
      requires Valid()
      modifies this
      ensures Valid()
      ensures entries == old(Put(entries, abbr, expansion))
      ensures forall k :: Get(entries, k) == if k == abbr then Some(expansion) else old(Get(entries, k))
      ensures saved == old(saved) + [entries]
      ensures sleeps == old(sleeps) && queries == old(queries)
    {
      PutLookups(entries, abbr, expansion);
      entries := Put(entries, abbr, expansion);
      saved := saved + [entries];
    }

    /** `normalize_company_name`: the empty name is returned as it is; any
        other name is rewritten by each entry in map order. */
    method NormalizeCompanyName(name: string) returns (r: string)
      ensures r == Normalize(entries, name)
    {
      if name == "" {
        return name;
      }
      r := name;
      var i := 0;
      while i < |entries|
        invariant 0 <= i <= |entries|
        invariant ApplyEntries(entries[i..], r) == Normalize(entries, name)
      {
        assert entries[i..][1..] == entries[i + 1..];
        var (abbr, expansion) := entries[i];
        if Contains(r, abbr) && expansion != "" {
          r := ReplaceAll(r, abbr, expansion);
        }
        i := i + 1;
      }
    }

    /** `match_company_names`: two non-empty names match when their normalised,
        lower-cased, stripped forms are equal or one contains the other. */
    function MatchCompanyNames(name1: string, name2: string): (r: bool)
      reads this
      ensures r ==> name1 != "" && name2 != ""
      ensures name1 != "" && name2 != "" && Normalize(entries, name1) == Normalize(entries, name2) ==> r
    {
      if name1 == "" || name2 == "" then false
      else
        var norm1 := Strip(Lower(Normalize(entries, name1)));
        var norm2 := Strip(Lower(Normalize(entries, name2)));
        norm1 == norm2 || Contains(norm2, norm1) || Contains(norm1, norm2)
    }
  }

  // ---------------------------------------------------------------------
  // Properties
  // ---------------------------------------------------------------------

  /** The abbreviations of a list of names are exactly the tokens ending in a
      full stop of any of the names, and each is a non-empty token free of
      whitespace. */
  lemma {:induction false} AbbreviationsInTokens(names: seq<string>, w: string)
    ensures w in AbbreviationsIn(names) <==>
              exists i :: 0 <= i < |names| && w in Split(names[i]) && EndsWith(w, ".")
    ensures w in AbbreviationsIn(names) ==> w != [] && forall k :: 0 <= k < |w| ==> !IsSpace(w[k])
    decreases |names|
  {
    if names != [] {
      var n := |names| - 1;
      var init := names[..n];
      AbbreviationsInTokens(init, w);
      assert forall i :: 0 <= i < n ==> init[i] == names[i];
      if exists i :: 0 <= i < |names| && w in Split(names[i]) && EndsWith(w, ".") {
        var i :| 0 <= i < |names| && w in Split(names[i]) && EndsWith(w, ".");
        if i < n {
          assert w in Split(init[i]);
        }
      }
      if w in AbbreviationsIn(names) && w !in AbbreviationsIn(init) {
        SplitWords(names[n]);
      }
    }
  }

  /** The company names of the extraction test. */
  const ExtractionNames: seq<string> := ["Infosys Ltd.", "Tata Motors Pvt. Ltd.", "Reliance Industries Ltd."]

  lemma TataTokens()
    ensures "Pvt." in Split("Tata Motors Pvt. Ltd.")
  {
    WordInSplit("Tata Motors ", "Pvt.", " Ltd.");
    assert "Tata Motors " + "Pvt." + " Ltd." == "Tata Motors Pvt. Ltd.";
  }

  lemma InfosysTokens()
    ensures "Ltd." in Split("Infosys Ltd.")
  {
    WordInSplit("Infosys ", "Ltd.", "");
    assert "Infosys " + "Ltd." + "" == "Infosys Ltd.";
  }

  /** The names of the extraction test yield `Ltd.` and `Pvt.`. */
  lemma ExtractionExample()
    ensures "Ltd." in AbbreviationsIn(ExtractionNames) && "Pvt." in AbbreviationsIn(ExtractionNames)
  {
    var names := ExtractionNames;
    TataTokens();
    InfosysTokens();
    assert names[0] == "Infosys Ltd." && names[1] == "Tata Motors Pvt. Ltd.";
    assert EndsWith("Pvt.", ".") && EndsWith("Ltd.", ".");
    AbbreviationsInTokens(names, "Ltd.");
    AbbreviationsInTokens(names, "Pvt.");
  }

  /** The entries of `entries` with a non-empty expansion, in order. */
  function WithExpansions(entries: Dict<string, string>): Dict<string, string>
  {
    if entries == [] then []
    else (if entries[0].1 != "" then [entries[0]] else []) + WithExpansions(entries[1..])
  }

  /** Entries with an empty expansion never alter a name: dropping them all
      leaves every normalisation as it was. */
  lemma {:induction false} EmptyExpansionsInert(entries: Dict<string, string>, name: string)
    ensures ApplyEntries(entries, name) == ApplyEntries(WithExpansions(entries), name)
    decreases |entries|
  {
    if entries != [] {
      var next := Rewrite(name, entries[0]);
      EmptyExpansionsInert(entries[1..], next);
      var w := WithExpansions(entries);
      if entries[0].1 != "" {
        assert w[0] == entries[0] && w[1..] == WithExpansions(entries[1..]);
      } else {
        assert next == name;
        assert w == WithExpansions(entries[1..]);
      }
    }
  }

  /** A name in which no key with a non-empty expansion occurs is returned
      unchanged. */
  lemma {:induction false} UntouchedName(entries: Dict<string, string>, name: string)
    requires forall i :: 0 <= i < |entries| ==> entries[i].1 == "" || !Contains(name, entries[i].0)
    ensures Normalize(entries, name) == name
    decreases |entries|
  {
    if entries != [] && name != "" {
      assert Rewrite(name, entries[0]) == name;
      assert forall i :: 0 <= i < |entries| - 1 ==> entries[1..][i] == entries[i + 1];
      UntouchedName(entries[1..], name);
    }
  }

  /** `name` with its trailing `pat` replaced, when `pat`'s first character
      does not occur before it. */
  lemma ReplaceTrailing(prefix: string, pat: string, rep: string)
    requires pat != [] && pat[0] !in prefix
    ensures Contains(prefix + pat, pat)
    ensures ReplaceAll(prefix + pat, pat, rep) == prefix + rep
  {
    ContainsAt(prefix + pat, pat);
    assert OccursAt(prefix + pat, pat, |prefix|);
    ReplaceSkip(prefix, pat, pat, rep);
    assert StartsWith(pat, pat);
    assert pat[|pat|..] == [];
  }

  /** The normalisation test: `Ltd.` expanded to `Limited`. */
  lemma NormalizationExample()
    ensures Normalize([("Ltd.", "Limited")], "Test Company Ltd.") == "Test Company Limited"
  {
    ExpandLtd();
  }

  /** Normalising twice can differ from normalising once: an expansion may
      recreate the key it replaced. */
  lemma NormalizeNotIdempotent()
    ensures var entries := [("ab", "a")];
      Normalize(entries, "abb") == "ab" && Normalize(entries, "ab") == "a"
  {
    ReplaceTrailing("", "ab", "a");
    assert "" + "ab" == "ab";
    assert ReplaceAll("abb", "ab", "a") == "a" + ReplaceAll("b", "ab", "a");
    assert ReplaceAll("b", "ab", "a") == "b";
    assert Contains("abb", "ab");
  }

  /** An entry emptied by a failed lookup is asked about again: the cache no
      longer serves it. */
  lemma FailedEntryRetried(entries: Dict<string, string>, abbr: string)
    ensures CachedExpansion(Put(entries, abbr, ""), abbr) == None
  {
    PutGet(entries, abbr, "", abbr);
  }

  /** The two expansions of the matching test, `Ltd.` and `Pvt.`. */
  const TestEntries: Dict<string, string> := [("Ltd.", "Limited"), ("Pvt.", "Private")]

  lemma ExpandLtd()
    ensures Rewrite("Test Company Ltd.", ("Ltd.", "Limited")) == "Test Company Limited"
  {
    assert 'L' !in "Test Company ";
    assert "Test Company " + "Ltd." == "Test Company Ltd.";
    assert "Test Company " + "Limited" == "Test Company Limited";
    ReplaceTrailing("Test Company ", "Ltd.", "Limited");
  }

  lemma ExpandPvt()
    ensures Rewrite("Different Company Pvt.", ("Pvt.", "Private")) == "Different Company Private"
  {
    assert 'P' !in "Different Company ";
    assert "Different Company " + "Pvt." == "Different Company Pvt.";
    assert "Different Company " + "Private" == "Different Company Private";
    ReplaceTrailing("Different Company ", "Pvt.", "Private");
  }

  /** An entry whose key holds a character the name lacks leaves it alone. */
  lemma KeyAbsent(name: string, entry: (string, string), k: int)
    requires 0 <= k < |entry.0| && entry.0[k] !in name
    ensures Rewrite(name, entry) == name
  {
    ContainedCharsOccur(name, entry.0, k);
  }

  lemma NormalizeLtd()
    ensures Normalize(TestEntries, "Test Company Ltd.") == "Test Company Limited"
  {
    ExpandLtd();
    KeyAbsent("Test Company Limited", ("Pvt.", "Private"), 0);
    assert TestEntries[1..] == [("Pvt.", "Private")];
  }

  lemma NormalizeLimited()
    ensures Normalize(TestEntries, "Test Company Limited") == "Test Company Limited"
  {
    KeyAbsent("Test Company Limited", ("Ltd.", "Limited"), 3);
    KeyAbsent("Test Company Limited", ("Pvt.", "Private"), 3);
    assert TestEntries[1..] == [("Pvt.", "Private")];
  }

  lemma NormalizePvt()
    ensures Normalize(TestEntries, "Different Company Pvt.") == "Different Company Private"
  {
    KeyAbsent("Different Company Pvt.", ("Ltd.", "Limited"), 0);
    ExpandPvt();
    assert TestEntries[1..] == [("Pvt.", "Private")];
  }

  /** The canonical forms of the two normalised test names. */
  const CanonicalLimited: string := "test company limited"
  const CanonicalPrivate: string := "different company private"

  /** The literal facts below sit in lemmas of their own: stated in line,
      next to `Strip` and `Lower`, they cost the solver far more. */
  lemma LowerLimited()
    ensures Lower("Test Company Limited") == CanonicalLimited
  {
  }

  lemma LowerPrivate()
    ensures Lower("Different Company Private") == CanonicalPrivate
  {
  }

  lemma CanonicalEnds()
    ensures CanonicalLimited[0] == 't' && CanonicalLimited[|CanonicalLimited| - 1] == 'd'
    ensures CanonicalPrivate[0] == 'd' && CanonicalPrivate[|CanonicalPrivate| - 1] == 'e'
  {
  }

  /** Lower-casing and stripping the normalised test names. */
  lemma CanonicalForms()
    ensures Strip(Lower("Test Company Limited")) == CanonicalLimited
    ensures Strip(Lower("Different Company Private")) == CanonicalPrivate
  {
    LowerLimited();
    LowerPrivate();
    CanonicalEnds();
    StripNoop(CanonicalLimited);
    StripNoop(CanonicalPrivate);
  }

  /** Neither canonical form contains the other: the longer one does not fit
      in the shorter, and the shorter holds an `l` the longer lacks. */
  lemma CanonicalFormsDiffer()
    ensures !Contains(CanonicalLimited, CanonicalPrivate)
    ensures !Contains(CanonicalPrivate, CanonicalLimited)
  {
    assert |CanonicalLimited| < |CanonicalPrivate|;
    assert CanonicalLimited[13] == 'l';
    assert 'l' !in CanonicalPrivate;
    NeitherContains(CanonicalLimited, CanonicalPrivate, 13);
  }

  /** The matching test: with `Ltd.` and `Pvt.` expanded, "Test Company Ltd."
      matches "Test Company Limited" and not "Different Company Pvt.". */
  lemma MatchingExample(service: AbbreviationService)
    requires service.entries == TestEntries
    ensures service.MatchCompanyNames("Test Company Ltd.", "Test Company Limited")
    ensures !service.MatchCompanyNames("Test Company Ltd.", "Different Company Pvt.")
  {
    NormalizeLtd();
    NormalizeLimited();
    NormalizePvt();
    CanonicalForms();
    CanonicalFormsDiffer();
  }

  /** Matching does not depend on the order of the two names. */
  lemma MatchSymmetric(service: AbbreviationService, name1: string, name2: string)
    ensures service.MatchCompanyNames(name1, name2) == service.MatchCompanyNames(name2, name1)
  {
  }
}
