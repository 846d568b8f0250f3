/**
 * The page controller (src/main.js, class `UUIDGenerator`) with the page
 * abstracted away: the text of the input box is a field, the radio buttons,
 * the hash function, the online generator's result, the uploaded file's text,
 * the clock and the JSON serialiser are parameters.
 *
 * The controller remembers the last request (`usernames`, `type`) and the
 * identifiers it produced (`cachedMappings`, an insertion-ordered `Map`), and
 * regenerates only when the request changes.
 */
module App {
  import opened Types
  import opened JsText
  import opened JsMap
  import opened Uuid
  import opened Generator
  import opened Utils

  // ---------------------------------------------------------------------------
  // From a generator result to the cache

  /** `m?.name && m?.uuid`: a mapping whose name and identifier are both non-empty. */
  predicate Usable(m: Mapping)
  {
    m.name != "" && m.uuid != ""
  }

  /**
   * `new Map(mappings.filter(usable).map(m => [m.name, m.uuid]))`: each usable
   * mapping in turn sets its name, so a later mapping for a name replaces an
   * earlier one.
   */
  function Lookup(mappings: seq<Mapping>): (lookup: map<string, string>)
    ensures forall k :: k in lookup ==> lookup[k] != ""
  {
    if |mappings| == 0 then map[]
    else
      var prev := Lookup(mappings[..|mappings| - 1]);
      var m := mappings[|mappings| - 1];
      if Usable(m) then prev[m.name := m.uuid] else prev
  }

  /**
   * A name is in the lookup exactly when some usable mapping carries it, and
   * then it maps to the identifier of the last such mapping.
   */
  lemma {:induction false} LookupLastWins(mappings: seq<Mapping>, name: string)
    ensures name in Lookup(mappings) <==> exists j :: 0 <= j < |mappings| && mappings[j].name == name && Usable(mappings[j])
    ensures name in Lookup(mappings) ==>
      exists j :: 0 <= j < |mappings| && mappings[j].name == name && Usable(mappings[j])
        && Lookup(mappings)[name] == mappings[j].uuid
        && forall later :: j < later < |mappings| ==> !(mappings[later].name == name && Usable(mappings[later]))
  {
    if |mappings| > 0 {
      var init := mappings[..|mappings| - 1];
      var m := mappings[|mappings| - 1];
      LookupLastWins(init, name);
      if m.name == name && Usable(m) {
        assert mappings[|mappings| - 1].name == name;
      } else {
        if name in Lookup(init) {
          var j :| 0 <= j < |init| && init[j].name == name && Usable(init[j])
            && Lookup(init)[name] == init[j].uuid
            && forall later :: j < later < |init| ==> !(init[later].name == name && Usable(init[later]));
          assert mappings[j] == init[j];
        }
        if exists j :: 0 <= j < |mappings| && mappings[j].name == name && Usable(mappings[j]) {
          var j :| 0 <= j < |mappings| && mappings[j].name == name && Usable(mappings[j]);
          assert j < |init| && init[j] == mappings[j];
        }
      }
    }
  }

  /** Whether the lookup holds an identifier for the name (`if (uuid)`). */
  predicate Cached(lookup: map<string, string>, name: string)
  {
    name in lookup && lookup[name] != ""
  }

  /**
   * The cache `fetchMappings` builds: walking the requested names in order,
   * each name the lookup knows is set to its identifier.
   */
  function Rebuild(names: seq<string>, lookup: map<string, string>): (entries: seq<Entry>)
    ensures DistinctKeys(entries)
  {
    if |names| == 0 then []
    else
      var prev := Rebuild(names[..|names| - 1], lookup);
      var name := names[|names| - 1];
      if Cached(lookup, name) then MapSet(prev, name, lookup[name]) else prev
  }

  /** The names the lookup knows, in request order, repeats included. */
  function CachedNames(names: seq<string>, lookup: map<string, string>): seq<string>
  {
    if |names| == 0 then []
    else
      var name := names[|names| - 1];
      CachedNames(names[..|names| - 1], lookup) + (if Cached(lookup, name) then [name] else [])
  }

  /** Each distinct element once, where it first occurs. */
  function FirstOccurrences(s: seq<string>): (r: seq<string>)
    ensures forall x :: x in r <==> x in s
    ensures forall i, j :: 0 <= i < j < |r| ==> r[i] != r[j]
  {
    if |s| == 0 then []
    else
      var prev := FirstOccurrences(s[..|s| - 1]);
      var x := s[|s| - 1];
      assert forall y :: y in s <==> y in s[..|s| - 1] || y == x;
      if x in prev then prev else prev + [x]
  }

  /** The cache keys are the known names in the order they were first requested. */
  lemma {:induction false} RebuildKeys(names: seq<string>, lookup: map<string, string>)
    ensures Keys(Rebuild(names, lookup)) == FirstOccurrences(CachedNames(names, lookup))
  {
    if |names| > 0 {
      var init := names[..|names| - 1];
      var name := names[|names| - 1];
      RebuildKeys(init, lookup);
      var cached := CachedNames(init, lookup);
      if Cached(lookup, name) {
        MapSetKeys(Rebuild(init, lookup), name, lookup[name]);
        assert CachedNames(names, lookup) == cached + [name];
        assert (cached + [name])[..|cached|] == cached;
      } else {
        assert CachedNames(names, lookup) == cached;
      }
    }
  }

  /** A requested name the lookup knows reads back as its identifier; every other name is absent. */
  lemma {:induction false} RebuildGet(names: seq<string>, lookup: map<string, string>, name: string)
    ensures Get(Rebuild(names, lookup), name) == if name in names && Cached(lookup, name) then Some(lookup[name]) else None
  {
    if |names| > 0 {
      var init := names[..|names| - 1];
      var last := names[|names| - 1];
      RebuildGet(init, lookup, name);
      assert name in names <==> name in init || name == last;
      if Cached(lookup, last) {
        MapSetGet(Rebuild(init, lookup), last, lookup[last], name);
      }
    }
  }

  // ---------------------------------------------------------------------------
  // The generator result a request gets

  /** The usernames as the values handed to the offline generator. */
  function AsValues(names: seq<string>): (values: seq<JsValue>)
    ensures |values| == |names|
    ensures forall i :: 0 <= i < |names| ==> values[i] == JsString(names[i])
  {
    seq(|names|, i requires 0 <= i < |names| => JsString(names[i]))
  }

  /**
   * The result `fetchMappings` awaits: the online generator's, or the offline
   * generator's for the names. Offline, no task fails and name `i` gets mapping `i`.
   */
  function Generated(importType: ImportType, md5: string -> Digest, online: MappingResult, names: seq<string>): (r: MappingResult)
    ensures importType == Online ==> r == online
    ensures importType == Offline ==>
      && |r.promises| == |names| && !HasRejection(r.promises) && |r.mappings| == |names|
      && forall i :: 0 <= i < |names| ==> r.mappings[i] == Mapping(names[i], OfflineUUIDOf(md5)(names[i]))
  {
    if importType == Online then online
    else
      var values := AsValues(names);
      AllStringsAllMapped(OfflineUUIDOf(md5), values);
      RejectionsCounted(OfflineOutcomes(values));
      MappingResult(OfflineOutcomes(values), OfflineMappings(OfflineUUIDOf(md5), values))
  }

  /** `settled.some(r => r.status === 'rejected')`. */
  predicate HasRejection(outcomes: seq<Settled>)
  {
    exists i :: 0 <= i < |outcomes| && outcomes[i].Rejected?
  }

  /** Some task was rejected exactly when the count of rejections is positive. */
  lemma {:induction false} RejectionsCounted(outcomes: seq<Settled>)
    ensures HasRejection(outcomes) <==> RejectedCount(outcomes) > 0
  {
    if |outcomes| > 0 {
      var init := outcomes[..|outcomes| - 1];
      RejectionsCounted(init);
      if HasRejection(init) {
        var i :| 0 <= i < |init| && init[i].Rejected?;
        assert outcomes[i] == init[i];
      }
      if HasRejection(outcomes) && !outcomes[|outcomes| - 1].Rejected? {
        var i :| 0 <= i < |outcomes| && outcomes[i].Rejected?;
        assert init[i] == outcomes[i];
      }
    }
  }

  /** `renderMappings`: the cache entries in order, each formatted as a pair. */
  function RenderMappings(entries: seq<Entry>, format: ExportFormat): (pairs: seq<Formatted>)
    ensures |pairs| == |entries|
    ensures forall i :: 0 <= i < |entries| ==> pairs[i] == FormatPair(entries[i].key, entries[i].value, format)
  {
    seq(|entries|, i requires 0 <= i < |entries| => FormatPair(entries[i].key, entries[i].value, format))
  }

  // ---------------------------------------------------------------------------
  // The input box and uploaded files

  /** `.split('\n').map(trim).filter(u => u && !existing.has(u))`: one pass over the file's lines. */
  function NewNames(lines: seq<string>, existing: seq<string>): (added: seq<string>)
    ensures |added| <= |lines|
    ensures forall k :: 0 <= k < |added| ==> added[k] != "" && IsTrimmed(added[k]) && added[k] !in existing
  {
    if |lines| == 0 then []
    else
      var name := Trim(lines[|lines| - 1]);
      NewNames(lines[..|lines| - 1], existing) + (if name != "" && name !in existing then [name] else [])
  }

  /** The file's names, in file order, that are not among the existing ones. */
  function Unseen(names: seq<string>, existing: seq<string>): (r: seq<string>)
    ensures forall k :: 0 <= k < |r| ==> r[k] in names && r[k] !in existing
  {
    if |names| == 0 then []
    else
      var name := names[|names| - 1];
      Unseen(names[..|names| - 1], existing) + (if name !in existing then [name] else [])
  }

  /** The one-pass filter is the file's parsed names less the existing ones: same names, same order, repeats kept. */
  lemma {:induction false} NewNamesAreUnseen(lines: seq<string>, existing: seq<string>)
    ensures NewNames(lines, existing) == Unseen(KeepNames(lines), existing)
  {
    if |lines| > 0 {
      var init := lines[..|lines| - 1];
      NewNamesAreUnseen(init, existing);
      var name := Trim(lines[|lines| - 1]);
      var kept := KeepNames(init);
      if name != "" {
        assert KeepNames(lines) == kept + [name];
        assert (kept + [name])[..|kept|] == kept;
        assert Unseen(KeepNames(lines), existing) == Unseen(kept, existing) + (if name !in existing then [name] else []);
      } else {
        assert KeepNames(lines) == kept;
      }
    }
  }

  /** The new input text: the names appended on new lines, after the current text if there is any. */
  function Merge(current: string, added: seq<string>): (merged: string)
    ensures current != "" ==> |merged| > |current| && merged[..|current|] == current && merged[|current|] == '\n'
  {
    if current != "" then current + "\n" + Join(added, "\n") else Join(added, "\n")
  }

  /**
   * Appending names this way adds exactly them, in order, to the names the input
   * already parses to.
   */
  lemma MergeParses(current: string, added: seq<string>)
    requires |added| >= 1
    requires forall k :: 0 <= k < |added| ==> added[k] != "" && IsTrimmed(added[k]) && '\n' !in added[k]
    ensures ParseUsernames(Merge(current, added)) == ParseUsernames(current) + added
  {
    var joined := Join(added, "\n");
    SplitOfJoin(added, '\n');
    KeepNamesOfNames(added);
    if current != "" {
      SplitAround(current, joined, '\n');
      assert current + "\n" + joined == current + ['\n'] + joined;
      KeepNamesAppend(Split(current, '\n'), added);
    }
  }

  /** The names a file contributes: trimmed, non-empty, without line feeds, and new to the input. */
  lemma NewNamesShape(text: string, existing: seq<string>)
    ensures forall k :: 0 <= k < |NewNames(Split(text, '\n'), existing)| ==>
      var name := NewNames(Split(text, '\n'), existing)[k];
      name != "" && IsTrimmed(name) && '\n' !in name && name !in existing
  {
    var lines := Split(text, '\n');
    NewNamesAreUnseen(lines, existing);
    KeepNamesWithout(lines, '\n');
    var names := KeepNames(lines);
    forall k | 0 <= k < |Unseen(names, existing)|
      ensures var name := Unseen(names, existing)[k]; name != "" && IsTrimmed(name) && '\n' !in name
    {
      var name := Unseen(names, existing)[k];
      var j :| 0 <= j < |names| && names[j] == name;
    }
  }

  /** Repeats inside one file are not removed: a new name on two lines is added twice. */
  lemma FileRepeatsKept(name: string, existing: seq<string>)
    requires name != "" && IsTrimmed(name) && '\n' !in name && name !in existing
    ensures NewNames(Split(name + "\n" + name, '\n'), existing) == [name, name]
  {
    TwoLines(name);
    TrimOfTrimmed(name);
    assert [name, name][..1] == [name];
    assert [name][..0] == [];
    assert NewNames([name], existing) == [name];
  }

  /** A line repeated on two lines splits into the two copies. */
  lemma TwoLines(name: string)
    requires '\n' !in name
    ensures Split(name + "\n" + name, '\n') == [name, name]
  {
    assert name + "\n" + name == name + ['\n'] + name;
    SplitAround(name, name, '\n');
    SplitWithoutSeparator(name, '\n');
  }

  // ---------------------------------------------------------------------------
  // Downloads

  /** What `downloadFile` is handed: the file name and the text. */
  datatype Download = Download(filename: string, data: string)

  /** `uuid-${timestamp}.${format}`. */
  function DownloadFilename(timestamp: string, format: ExportFormat): (name: string)
    ensures |name| == |timestamp| + 6 + |FormatName(format)|
    ensures name[..5] == "uuid-" && name[5..5 + |timestamp|] == timestamp && name[5 + |timestamp|] == '.'
    ensures name[6 + |timestamp|..] == FormatName(format)
  {
    "uuid-" + timestamp + "." + FormatName(format)
  }

  /**
   * The file name splits on its only dot into "uuid-" followed by the timestamp,
   * and the format's extension.
   */
  lemma DownloadFilenameLayout(d: DateParts, format: ExportFormat)
    requires ValidDate(d)
    ensures Split(DownloadFilename(GenerateTimestamp(d), format), '.') == ["uuid-" + GenerateTimestamp(d), FormatName(format)]
  {
    TimestampCharacters(d, '.');
    FilenameSplits(GenerateTimestamp(d), format);
  }

  lemma FilenameSplits(timestamp: string, format: ExportFormat)
    requires '.' !in timestamp
    ensures Split(DownloadFilename(timestamp, format), '.') == ["uuid-" + timestamp, FormatName(format)]
  {
    var stem := "uuid-" + timestamp;
    assert '.' !in stem by {
      forall k | 0 <= k < |stem| ensures stem[k] != '.' {
        if k >= 5 {
          assert stem[k] == timestamp[k - 5];
        }
      }
    }
    assert DownloadFilename(timestamp, format) == stem + ['.'] + FormatName(format);
    SplitAround(stem, FormatName(format), '.');
    SplitWithoutSeparator(stem, '.');
    SplitWithoutSeparator(FormatName(format), '.');
  }

  // ---------------------------------------------------------------------------
  // The controller

  class UuidGenerator {
    /** The input box's text; None when the page has no input box. */
    var input: Option<string>
    /** The usernames of the last request. */
    var usernames: seq<string>
    /** The import type of the last request; None stands for ''. */
    var importType: Option<ImportType>
    /** The identifiers of the last request, in insertion order. */
    var cachedMappings: seq<Entry>

    /** The cache is a `Map`: no key occurs twice. */
    predicate Valid()
      reads this
    {
      DistinctKeys(cachedMappings)
    }

    /** A fresh controller: no request yet, an empty cache. */
    constructor(input: Option<string>)
      ensures Valid()
      ensures this.input == input && usernames == [] && importType == None && cachedMappings == []
    {
      this.input := input;
      usernames := [];
      importType := None;
      cachedMappings := [];
    }

    /** `this.elements.input?.value || ''`. */
    function InputText(): string
      reads this
    {
      if input.Some? then input.value else ""
    }

    /** `getUsernames`: the input box's names, each non-empty and trimmed. */
    function GetUsernames(): (names: seq<string>)
      reads this
      ensures forall k :: 0 <= k < |names| ==> names[k] != "" && IsTrimmed(names[k])
    {
      ParseUsernames(InputText())
    }

    /**
     * `fetchMappings`: records the request before anything else, gets the
     * generator result, reports whether any task failed, and, unless the result
     * has no mapping at all, clears the cache and sets every requested name the
     * lookup knows, in request order.
     */
    method FetchMappings(names: seq<string>, importType: ImportType, md5: string -> Digest, online: MappingResult)
      returns (hasErrors: bool)
      requires Valid()
      modifies this
      ensures Valid()
      ensures input == old(input) && usernames == names && this.importType == Some(importType)
      ensures hasErrors == HasRejection(Generated(importType, md5, online, names).promises)
      ensures var mappings := Generated(importType, md5, online, names).mappings;
        cachedMappings == if |mappings| == 0 then old(cachedMappings) else Rebuild(names, Lookup(mappings))
    {
      usernames := names;
      this.importType := Some(importType);
      var result: MappingResult;
      if importType == Online {
        result := online;
      } else {
        result := GenerateOfflineMappings(md5, AsValues(usernames));
      }
      hasErrors := HasRejection(result.promises);
      if |result.mappings| == 0 {
        return;
      }
      RebuildCache(Lookup(result.mappings));
    }

    /**
     * The cache rebuild inside `fetchMappings`: clears the cache, then sets
     * every requested name the lookup knows, in request order.
     */
    method RebuildCache(lookup: map<string, string>)
      modifies this
      ensures input == old(input) && usernames == old(usernames) && importType == old(importType)
      ensures cachedMappings == Rebuild(usernames, lookup)
    {
      cachedMappings := [];
      for i := 0 to |usernames|
        invariant input == old(input) && usernames == old(usernames) && importType == old(importType)
        invariant cachedMappings == Rebuild(usernames[..i], lookup)
      {
        var username := usernames[i];
        assert usernames[..i + 1][..i] == usernames[..i];
        if username in lookup && lookup[username] != "" {
          cachedMappings := MapSet(cachedMappings, username, lookup[username]);
        }
      }
      assert usernames[..|usernames|] == usernames;
    }

    /**
     * `generatePairs`: nothing happens for an empty input; otherwise the cache
     * is refetched exactly when the import type or the ordered list of names
     * differs from the last request, and the cache, if not empty, is rendered.
     * `hasErrors` is the flag `fetchMappings` raises its error message on.
     */
    method GeneratePairs(format: ExportFormat, importType: ImportType, md5: string -> Digest, online: MappingResult,
                         stringify: seq<Formatted> -> string)
      returns (refetched: bool, hasErrors: bool, code: Option<string>)
      requires Valid()
      modifies this
      ensures Valid()
      ensures input == old(input)
      ensures var names := ParseUsernames(old(InputText()));
        && (names == [] ==> !refetched)
        && (names != [] ==> (refetched <==> Some(importType) != old(this.importType) || !SameElements(names, old(usernames))))
      ensures !refetched ==>
        usernames == old(usernames) && this.importType == old(this.importType) && cachedMappings == old(cachedMappings)
      ensures refetched ==> var names := ParseUsernames(old(InputText()));
        var mappings := Generated(importType, md5, online, names).mappings;
        && usernames == names && this.importType == Some(importType)
        && cachedMappings == if |mappings| == 0 then old(cachedMappings) else Rebuild(names, Lookup(mappings))
      ensures hasErrors <==> refetched && HasRejection(Generated(importType, md5, online, ParseUsernames(old(InputText()))).promises)
      ensures code.Some? <==> ParseUsernames(old(InputText())) != [] && |cachedMappings| > 0
      ensures code.Some? ==> code.value == FormatOutputCode(RenderMappings(cachedMappings, format), format, stringify)
    {
      var names := GetUsernames();
      if |names| == 0 {
        return false, false, None;
      }
      var same := AreArraysEqual(names, usernames);
      refetched := Some(importType) != this.importType || !same;
      hasErrors := false;
      if refetched {
        hasErrors := FetchMappings(names, importType, md5, online);
      }
      if |cachedMappings| > 0 {
        code := Some(FormatOutputCode(RenderMappings(cachedMappings, format), format, stringify));
      } else {
        code := None;
      }
    }

    /**
     * `updateInputFromFile`: when the page has an input box, appends the file's
     * trimmed, non-empty lines that the input does not already hold, one per
     * line; the input is left as it is when there are none.
     */
    method UpdateInputFromFile(text: string)
      requires Valid()
      modifies this
      ensures Valid()
      ensures usernames == old(usernames) && importType == old(importType) && cachedMappings == old(cachedMappings)
      ensures old(input).None? ==> input == None
      ensures old(input).Some? ==>
        var added := NewNames(Split(text, '\n'), ParseUsernames(old(input).value));
        input == Some(if added == [] then old(input).value else Merge(old(input).value, added))
    {
      if input.None? {
        return;
      }
      var currentValue := input.value;
      var existing := GetUsernames();
      var newUsernames := NewNames(Split(text, '\n'), existing);
      if |newUsernames| > 0 {
        input := Some(Merge(currentValue, newUsernames));
      }
    }

    /** `handleDownload`: nothing without result text; otherwise the text under `uuid-<timestamp>.<format>`. */
    method HandleDownload(content: Option<string>, now: DateParts, format: ExportFormat) returns (download: Option<Download>)
      ensures content.None? || content == Some("") ==> download == None
      ensures content.Some? && content.value != "" ==>
        download == Some(Download(DownloadFilename(GenerateTimestamp(now), format), content.value))
    {
      if content.None? || content.value == "" {
        return None;
      }
      var timestamp := GenerateTimestamp(now);
      var filename := DownloadFilename(timestamp, format);
      return Some(Download(filename, content.value));
    }
  }

  // ---------------------------------------------------------------------------
  // Properties of the controller

  /**
   * Uploading a file adds exactly the file's new names, in file order, to the
   * names the input box parses to.
   */
  lemma UploadAddsNewNames(current: string, text: string)
    ensures var added := NewNames(Split(text, '\n'), ParseUsernames(current));
      added != [] ==> ParseUsernames(Merge(current, added)) == ParseUsernames(current) + added
  {
    var added := NewNames(Split(text, '\n'), ParseUsernames(current));
    NewNamesShape(text, ParseUsernames(current));
    if added != [] {
      MergeParses(current, added);
    }
  }

  /**
   * Offline, for an input whose names all derive: the cache holds every requested
   * name once, in first-request order, each with its derived identifier.
   */
  lemma {:induction false} OfflineCache(uuidOf: string -> string, names: seq<string>, name: string)
    requires forall s :: uuidOf(s) != ""
    requires forall k :: 0 <= k < |names| ==> names[k] != ""
    ensures Keys(Rebuild(names, Lookup(OfflineMappings(uuidOf, AsValues(names))))) == FirstOccurrences(names)
    ensures Get(Rebuild(names, Lookup(OfflineMappings(uuidOf, AsValues(names)))), name) ==
      if name in names then Some(uuidOf(name)) else None
  {
    var values := AsValues(names);
    var lookup := Lookup(OfflineMappings(uuidOf, values));
    AllStringsAllMapped(uuidOf, values);
    forall k | 0 <= k < |names| ensures Cached(lookup, names[k]) && lookup[names[k]] == uuidOf(names[k]) {
      LookupOfOwnName(uuidOf, names, names[k]);
    }
    AllCached(names, lookup);
    RebuildKeys(names, lookup);
    RebuildGet(names, lookup, name);
    if name in names {
      LookupOfOwnName(uuidOf, names, name);
    }
  }

  /** Offline, a requested name's lookup entry is its own derived identifier. */
  lemma LookupOfOwnName(uuidOf: string -> string, names: seq<string>, name: string)
    requires forall s :: uuidOf(s) != ""
    requires forall k :: 0 <= k < |names| ==> names[k] != ""
    requires name in names
    ensures Cached(Lookup(OfflineMappings(uuidOf, AsValues(names))), name)
    ensures Lookup(OfflineMappings(uuidOf, AsValues(names)))[name] == uuidOf(name)
  {
    var values := AsValues(names);
    var mappings := OfflineMappings(uuidOf, values);
    AllStringsAllMapped(uuidOf, values);
    var i :| 0 <= i < |names| && names[i] == name;
    assert mappings[i].name == name && Usable(mappings[i]);
    LookupLastWins(mappings, name);
    LookupAgrees(mappings, name, uuidOf(name));
  }

  /** When every mapping for a name carries the same identifier, the lookup holds that identifier. */
  lemma {:induction false} LookupAgrees(mappings: seq<Mapping>, name: string, uuid: string)
    requires forall j :: 0 <= j < |mappings| && mappings[j].name == name ==> mappings[j].uuid == uuid
    ensures name in Lookup(mappings) ==> Lookup(mappings)[name] == uuid
  {
    if |mappings| > 0 {
      LookupAgrees(mappings[..|mappings| - 1], name, uuid);
    }
  }

  /** When the lookup knows every requested name, no name is skipped. */
  lemma {:induction false} AllCached(names: seq<string>, lookup: map<string, string>)
    requires forall k :: 0 <= k < |names| ==> Cached(lookup, names[k])
    ensures CachedNames(names, lookup) == names
  {
    if |names| > 0 {
      AllCached(names[..|names| - 1], lookup);
    }
  }

  /** The offline deriver never yields an empty identifier. */
  lemma OfflineUUIDNotEmpty(md5: string -> Digest)
    ensures forall s :: OfflineUUIDOf(md5)(s) != ""
  {
    forall s ensures OfflineUUIDOf(md5)(s) != "" {
      assert |OfflineUUID(md5, s)| == 36;
    }
  }
}
