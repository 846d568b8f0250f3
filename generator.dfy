/**
 * Offline batch generation (src/js/generator.js, `generateOfflineMappings`):
 * one task per input name, in input order; a name that derives pushes its
 * mapping, a name that fails settles its own task as rejected and adds no
 * mapping, and the batch goes on with the next name.
 *
 * The promises of the source are modelled by their settled outcomes.
 */
module Generator {
  import opened Types
  import opened Uuid

  /** The outcome the offline task of one input settles with. */
  function OfflineOutcome(v: JsValue): (o: Settled)
    ensures o.Rejected? <==> v.NonString?
    ensures o.Rejected? ==> o.reason == NotAStringMessage
  {
    match v
    case JsString(_) => Fulfilled
    case NonString => Rejected(NotAStringMessage)
  }

  /** The settled outcomes of a batch: one per input, in input order. */
  function OfflineOutcomes(names: seq<JsValue>): (outcomes: seq<Settled>)
    ensures |outcomes| == |names|
    ensures forall i :: 0 <= i < |names| ==> outcomes[i] == OfflineOutcome(names[i])
  {
    seq(|names|, i requires 0 <= i < |names| => OfflineOutcome(names[i]))
  }

  /** The string values among the inputs, in input order. */
  function Strings(names: seq<JsValue>): seq<string>
  {
    if |names| == 0 then []
    else
      var last := names[|names| - 1];
      Strings(names[..|names| - 1]) + (if last.JsString? then [last.s] else [])
  }

  /** The mappings a batch collects: one per string input, in input order. */
  function OfflineMappings(uuidOf: string -> string, names: seq<JsValue>): seq<Mapping>
  {
    if |names| == 0 then []
    else
      var prev := OfflineMappings(uuidOf, names[..|names| - 1]);
      match names[|names| - 1]
      case JsString(s) => prev + [Mapping(s, uuidOf(s))]
      case NonString => prev
  }

  /** How many of the outcomes are rejections. */
  function RejectedCount(outcomes: seq<Settled>): nat
  {
    if |outcomes| == 0 then 0
    else RejectedCount(outcomes[..|outcomes| - 1]) + (if outcomes[|outcomes| - 1].Rejected? then 1 else 0)
  }

  /**
   * `generateOfflineMappings`: walks the names, derives each one, pushes a
   * mapping for each derived name and records one settled outcome per name.
   */
  method GenerateOfflineMappings(md5: string -> Digest, usernames: seq<JsValue>) returns (result: MappingResult)
    ensures result.promises == OfflineOutcomes(usernames)
    ensures result.mappings == OfflineMappings(OfflineUUIDOf(md5), usernames)
  {
    ghost var uuidOf := OfflineUUIDOf(md5);
    var mappings: seq<Mapping> := [];
    var promises: seq<Settled> := [];
    for i := 0 to |usernames|
      invariant promises == OfflineOutcomes(usernames[..i])
      invariant mappings == OfflineMappings(uuidOf, usernames[..i])
    {
      var username := usernames[i];
      BatchStep(uuidOf, usernames, i);
      var derived := CreateUUID(md5, username);
      match derived
      case Success(uuid) =>
        mappings := mappings + [Mapping(username.s, uuid)];
        promises := promises + [Fulfilled];
      case Failure(err) =>
        promises := promises + [Rejected(err)];
    }
    assert usernames[..|usernames|] == usernames;
    result := MappingResult(promises, mappings);
  }

  /** One more name extends the outcomes by its own outcome and the mappings by at most its own mapping. */
  lemma BatchStep(uuidOf: string -> string, names: seq<JsValue>, i: nat)
    requires i < |names|
    ensures OfflineOutcomes(names[..i + 1]) == OfflineOutcomes(names[..i]) + [OfflineOutcome(names[i])]
    ensures names[i].JsString? ==>
      OfflineMappings(uuidOf, names[..i + 1]) == OfflineMappings(uuidOf, names[..i]) + [Mapping(names[i].s, uuidOf(names[i].s))]
    ensures names[i].NonString? ==> OfflineMappings(uuidOf, names[..i + 1]) == OfflineMappings(uuidOf, names[..i])
  {
    assert names[..i + 1][..i] == names[..i];
  }

  // ---------------------------------------------------------------------------
  // Properties of a batch

  /** The mappings are exactly the string inputs, each with its offline identifier, in input order. */
  lemma {:induction false} MappingsAreStringInputs(uuidOf: string -> string, names: seq<JsValue>)
    ensures |OfflineMappings(uuidOf, names)| == |Strings(names)|
    ensures forall k :: 0 <= k < |Strings(names)| ==>
      OfflineMappings(uuidOf, names)[k] == Mapping(Strings(names)[k], uuidOf(Strings(names)[k]))
  {
    if |names| > 0 {
      MappingsAreStringInputs(uuidOf, names[..|names| - 1]);
    }
  }

  /** Every mapped name is one of the inputs. */
  lemma {:induction false} StringsAreInputs(names: seq<JsValue>)
    ensures forall k :: 0 <= k < |Strings(names)| ==> JsString(Strings(names)[k]) in names
  {
    if |names| > 0 {
      var init := names[..|names| - 1];
      StringsAreInputs(init);
      forall k | 0 <= k < |Strings(names)| ensures JsString(Strings(names)[k]) in names {
        if k < |Strings(init)| {
          assert JsString(Strings(init)[k]) in init;
        } else {
          assert names[|names| - 1] == JsString(Strings(names)[k]);
        }
      }
    }
  }

  /**
   * Each name is handled on its own: the batch over `a + b` collects the
   * mappings of `a` followed by those of `b`. A failing name therefore removes
   * only its own mapping and never stops the names after it.
   */
  lemma {:induction false} MappingsAppend(uuidOf: string -> string, a: seq<JsValue>, b: seq<JsValue>)
    ensures OfflineMappings(uuidOf, a + b) == OfflineMappings(uuidOf, a) + OfflineMappings(uuidOf, b)
  {
    if |b| > 0 {
      assert (a + b)[..|a + b| - 1] == a + b[..|b| - 1];
      MappingsAppend(uuidOf, a, b[..|b| - 1]);
    } else {
      assert a + b == a;
    }
  }

  /** Input order is kept: the string inputs of `a + b` are those of `a`, then those of `b`. */
  lemma {:induction false} StringsAppend(a: seq<JsValue>, b: seq<JsValue>)
    ensures Strings(a + b) == Strings(a) + Strings(b)
  {
    if |b| > 0 {
      assert (a + b)[..|a + b| - 1] == a + b[..|b| - 1];
      StringsAppend(a, b[..|b| - 1]);
    } else {
      assert a + b == a;
    }
  }

  /** A failing input contributes a rejection and no mapping; a string contributes one mapping. */
  lemma SingleInput(uuidOf: string -> string, v: JsValue)
    ensures v.NonString? ==> OfflineMappings(uuidOf, [v]) == [] && OfflineOutcomes([v]) == [Rejected(NotAStringMessage)]
    ensures v.JsString? ==> OfflineMappings(uuidOf, [v]) == [Mapping(v.s, uuidOf(v.s))] && OfflineOutcomes([v]) == [Fulfilled]
  {
    assert [v][..0] == [];
  }

  /** Every name is accounted for: mappings plus rejections make up the batch. */
  lemma {:induction false} MappingsPlusFailures(uuidOf: string -> string, names: seq<JsValue>)
    ensures |OfflineMappings(uuidOf, names)| + RejectedCount(OfflineOutcomes(names)) == |names|
  {
    if |names| > 0 {
      var init := names[..|names| - 1];
      MappingsPlusFailures(uuidOf, init);
      assert OfflineOutcomes(names)[..|names| - 1] == OfflineOutcomes(init);
    }
  }

  /** When every input is a string, nothing fails and mapping `i` is name `i` with its identifier. */
  lemma {:induction false} AllStringsAllMapped(uuidOf: string -> string, names: seq<JsValue>)
    requires forall i :: 0 <= i < |names| ==> names[i].JsString?
    ensures RejectedCount(OfflineOutcomes(names)) == 0
    ensures |OfflineMappings(uuidOf, names)| == |names|
    ensures forall i :: 0 <= i < |names| ==>
      OfflineMappings(uuidOf, names)[i] == Mapping(names[i].s, uuidOf(names[i].s))
  {
    if |names| > 0 {
      var init := names[..|names| - 1];
      AllStringsAllMapped(uuidOf, init);
      assert OfflineOutcomes(names)[..|names| - 1] == OfflineOutcomes(init);
      var last := names[|names| - 1];
      assert OfflineMappings(uuidOf, names) == OfflineMappings(uuidOf, init) + [Mapping(last.s, uuidOf(last.s))];
      forall i | 0 <= i < |names|
        ensures OfflineMappings(uuidOf, names)[i] == Mapping(names[i].s, uuidOf(names[i].s))
      {
        if i < |init| {
          assert names[i] == init[i];
        }
      }
    }
  }
}
