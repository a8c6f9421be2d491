/** The pending-gate state of a conversation: what may be shown to the frontend,
    which field definitions survive, and the round trip through Redis. */
module GateState {
  import opened Options
  import opened JsonValues
  import opened Sets
  import opened Text

  // ----- Stripping backend-only keys -----

  const STRIP_EXACT := {
    "otp_flow_id", "bridge_token", "page_region", "captured_page_region", "send_selector",
    "challenge_selector", "login_probe_selector", "username_selector", "password_selector",
    "submit_selector", "phone_selector", "code_selector", "captcha_image_selector",
    "captcha_input_selector", "qr_image_selector", "image_selector", "target_gate", "tab_selector"
  }

  predicate EndsWith(s: string, suffix: string) {
    |s| >= |suffix| && s[|s| - |suffix|..] == suffix
  }

  predicate BackendOnly(key: string) {
    key in STRIP_EXACT || EndsWith(key, "_selector")
  }

  function Choice(o: Object, show: Json -> string): Option<Json> {
    var id, caption := Strip(StrOr(Field(o, "id"), show)), Strip(StrOr(Field(o, "label"), show));
    if id != "" && caption != "" then Some(JObj(map["id" := JStr(id), "label" := JStr(caption)])) else None
  }

  function Choices(items: seq<Json>, show: Json -> string): seq<Json> {
    if items == [] then []
    else
      var before, item := Choices(items[..|items| - 1], show), items[|items| - 1];
      if item.JObj? && Choice(item.fields, show).Some? then before + [Choice(item.fields, show).value] else before
  }

  function StripField(key: string, v: Json, show: Json -> string): Json
    decreases v
  {
    if key == "choices" && v.JArr? then JArr(Choices(v.items, show))
    else if v.JObj? then JObj(map k | k in v.fields && !BackendOnly(k) :: StripField(k, v.fields[k], show))
    else v
  }

  /** `strip_public_gate_payload`. */
  function StripPayload(o: Object, show: Json -> string): Object {
    map k | k in o && !BackendOnly(k) :: StripField(k, o[k], show)
  }

  method PublicLoginChoices(items: seq<Json>, show: Json -> string) returns (out: seq<Json>)
    ensures out == Choices(items, show)
  {
    out := [];
    for i := 0 to |items|
      invariant out == Choices(items[..i], show)
    {
      assert items[..i + 1][..i] == items[..i];
      var item := items[i];
      if item.JObj? {
        var id := Strip(StrOr(Field(item.fields, "id"), show));
        var caption := Strip(StrOr(Field(item.fields, "label"), show));
        if id != "" && caption != "" {
          out := out + [JObj(map["id" := JStr(id), "label" := JStr(caption)])];
        }
      }
    }
    assert items[..|items|] == items;
  }

  /** A choice is offered when both its id and its caption have text. */
  ghost predicate Offered(item: Json, show: Json -> string) {
    && item.JObj?
    && Strip(StrOr(Field(item.fields, "id"), show)) != "" && Strip(StrOr(Field(item.fields, "label"), show)) != ""
  }

  ghost function OfferedAll(items: seq<Json>, show: Json -> string): seq<bool> {
    seq(|items|, i requires 0 <= i < |items| => Offered(items[i], show))
  }

  /** The public part of an offered choice: its id and caption, stripped, and no
      other key. */
  ghost predicate PublicPart(c: Json, item: Json, show: Json -> string) {
    && c.JObj? && item.JObj? && c.fields.Keys == {"id", "label"}
    && c.fields["id"] == JStr(Strip(StrOr(Field(item.fields, "id"), show)))
    && c.fields["label"] == JStr(Strip(StrOr(Field(item.fields, "label"), show)))
  }

  lemma ChoiceIsExact(item: Json, show: Json -> string)
    ensures item.JObj? && Choice(item.fields, show).Some? <==> Offered(item, show)
    ensures Offered(item, show) ==> PublicPart(Choice(item.fields, show).value, item, show)
  {
    hide Strip, StrOr, Field;
    assert "id" != "label" by {
      assert |"id"| != |"label"|;
    }
  }

  /** The public choices are the offered ones, one each and in order, reduced to
      their public part. */
  lemma {:induction false} ChoicesAreExact(items: seq<Json>, show: Json -> string) returns (at: seq<nat>)
    ensures Lists(at, OfferedAll(items, show)) && |at| == |Choices(items, show)|
    ensures forall k :: 0 <= k < |at| ==> PublicPart(Choices(items, show)[k], items[at[k]], show)
  {
    hide Choice, Offered, Lists, PublicPart;
    if items == [] {
      NothingListed();
      return [];
    }
    var n := |items| - 1;
    var before := ChoicesAreExact(items[..n], show);
    ChoiceIsExact(items[n], show);
    ListsNext(before, OfferedAll(items[..n], show), Offered(items[n], show));
    assert OfferedAll(items, show) == OfferedAll(items[..n], show) + [Offered(items[n], show)];
    at := ListNext(before, n, Offered(items[n], show));
    ListedBelow(before, OfferedAll(items[..n], show));
    ChoicesFollow(items, show, before);
  }

  lemma ChoicesFollow(items: seq<Json>, show: Json -> string, before: seq<nat>)
    requires items != [] && |before| == |Choices(items[..|items| - 1], show)|
    requires forall k :: 0 <= k < |before| ==>
               before[k] < |items| - 1 && PublicPart(Choices(items[..|items| - 1], show)[k], items[before[k]], show)
    ensures var at := ListNext(before, |items| - 1, Offered(items[|items| - 1], show));
            && |at| == |Choices(items, show)|
            && forall k :: 0 <= k < |at| ==>
                 at[k] < |items| && PublicPart(Choices(items, show)[k], items[at[k]], show)
  {
    ChoiceIsExact(items[|items| - 1], show);
    hide Choice, Offered, PublicPart;
  }

  lemma ChoiceAgain(o: Object, show: Json -> string)
    requires Choice(o, show).Some?
    ensures Choice(o, show).value.JObj? && Choice(Choice(o, show).value.fields, show) == Choice(o, show)
  {
    StripIsIdempotent(StrOr(Field(o, "id"), show));
    StripIsIdempotent(StrOr(Field(o, "label"), show));
    hide Strip;
  }

  lemma {:induction false} ChoicesAgain(items: seq<Json>, show: Json -> string)
    ensures Choices(Choices(items, show), show) == Choices(items, show)
  {
    if items != [] {
      var before, item := Choices(items[..|items| - 1], show), items[|items| - 1];
      ChoicesAgain(items[..|items| - 1], show);
      if item.JObj? && Choice(item.fields, show).Some? {
        var c := Choice(item.fields, show).value;
        ChoiceAgain(item.fields, show);
        hide Choice;
        assert (before + [c])[..|before|] == before;
      }
    }
  }

  lemma {:induction false} StripFieldAgain(key: string, v: Json, show: Json -> string)
    ensures StripField(key, StripField(key, v, show), show) == StripField(key, v, show)
    decreases v
  {
    if key == "choices" && v.JArr? {
      ChoicesAgain(v.items, show);
    } else if v.JObj? {
      forall k | k in v.fields && !BackendOnly(k)
        ensures StripField(k, StripField(k, v.fields[k], show), show) == StripField(k, v.fields[k], show)
      {
        StripFieldAgain(k, v.fields[k], show);
      }
    }
  }

  /** Stripping twice is stripping once. */
  lemma StripIsIdempotentOnPayloads(o: Object, show: Json -> string)
    ensures StripPayload(StripPayload(o, show), show) == StripPayload(o, show)
  {
    forall k | k in o && !BackendOnly(k)
      ensures StripField(k, StripField(k, o[k], show), show) == StripField(k, o[k], show)
    {
      StripFieldAgain(k, o[k], show);
    }
  }

  /** No backend-only key in any dictionary reached through dictionaries. */
  ghost predicate Clean(v: Json) {
    v.JObj? ==> forall k :: k in v.fields ==> !BackendOnly(k) && Clean(v.fields[k])
  }

  /** No backend-only key anywhere, lists included. */
  ghost predicate DeepClean(v: Json) {
    match v
    case JObj(o) => forall k :: k in o ==> !BackendOnly(k) && DeepClean(o[k])
    case JArr(items) => forall i :: 0 <= i < |items| ==> DeepClean(items[i])
    case _ => true
  }

  /** The lists that stripping copies verbatim hold no backend-only key. */
  ghost predicate ListsClean(key: string, v: Json)
    decreases v
  {
    match v
    case JObj(o) => forall k :: k in o && !BackendOnly(k) ==> ListsClean(k, o[k])
    case JArr(items) => key == "choices" || DeepClean(v)
    case _ => true
  }

  lemma {:induction false} StrippedIsClean(key: string, v: Json, show: Json -> string)
    ensures Clean(StripField(key, v, show))
    decreases v
  {
    if v.JObj? {
      forall k | k in v.fields && !BackendOnly(k)
        ensures Clean(StripField(k, v.fields[k], show))
      {
        StrippedIsClean(k, v.fields[k], show);
      }
    }
  }

  lemma ChoiceIsClean(o: Object, show: Json -> string)
    requires Choice(o, show).Some?
    ensures DeepClean(Choice(o, show).value)
  {
    ShortKeyIsPublic("id");
    ShortKeyIsPublic("label");
    hide BackendOnly, Strip;
    var c := Choice(o, show).value;
    assert forall k :: k in c.fields ==> k in {"id", "label"} && c.fields[k].JStr?;
  }

  lemma {:induction false} ChoicesAreClean(items: seq<Json>, show: Json -> string)
    ensures DeepClean(JArr(Choices(items, show)))
  {
    if items != [] {
      var before, item := Choices(items[..|items| - 1], show), items[|items| - 1];
      ChoicesAreClean(items[..|items| - 1], show);
      if item.JObj? && Choice(item.fields, show).Some? {
        ChoiceIsClean(item.fields, show);
      }
      hide Choice, BackendOnly;
      assert JArr(before).items == before;
    }
  }

  /** Stripping does not descend into lists other than `choices`: the result is
      free of backend-only keys everywhere exactly when those lists already were. */
  lemma {:induction false} StripIsDeepExactly(key: string, v: Json, show: Json -> string)
    ensures DeepClean(StripField(key, v, show)) <==> ListsClean(key, v)
    decreases v
  {
    match v
    case JObj(o) =>
      var out := StripField(key, v, show).fields;
      forall k | k in o && !BackendOnly(k)
        ensures DeepClean(out[k]) <==> ListsClean(k, o[k])
      {
        StripIsDeepExactly(k, o[k], show);
      }
      if DeepClean(StripField(key, v, show)) {
        forall k | k in o && !BackendOnly(k)
          ensures ListsClean(k, o[k])
        {
          assert k in out && DeepClean(out[k]);
        }
      }
    case JArr(items) =>
      if key == "choices" {
        ChoicesAreClean(items, show);
      }
    case _ =>
  }

  /** A selector inside a list element does reach the frontend. */
  lemma SelectorLeaksThroughList(show: Json -> string)
    ensures var o: Object := map["fields" := JArr([JObj(map["send_selector" := JStr("#send")])])];
            StripPayload(o, show) == o && !DeepClean(JObj(StripPayload(o, show)))
  {
    var inner := JObj(map["send_selector" := JStr("#send")]);
    var o: Object := map["fields" := JArr([inner])];
    assert !BackendOnly("fields");
    assert StripPayload(o, show) == o;
    assert !DeepClean(inner) by {
      assert "send_selector" in inner.fields;
    }
    assert JArr([inner]).items[0] == inner;
    assert !DeepClean(o["fields"]);
  }

  // ----- Field definitions -----

  function FieldName(o: Object): string {
    var v := Field(o, "name");
    if v.JStr? then Strip(v.s) else ""
  }

  predicate Named(j: Json) {
    j.JObj? && FieldName(j.fields) != ""
  }

  /** Named definitions are kept as they are, the rest are dropped. */
  function Normalize(defs: seq<Json>): seq<Json> {
    if defs == [] then []
    else if Named(defs[|defs| - 1]) then Normalize(defs[..|defs| - 1]) + [defs[|defs| - 1]]
    else Normalize(defs[..|defs| - 1])
  }

  method NormalizeFieldDefs(defs: seq<Json>) returns (out: seq<Json>)
    ensures out == Normalize(defs)
  {
    out := [];
    for i := 0 to |defs|
      invariant out == Normalize(defs[..i])
    {
      assert defs[..i + 1][..i] == defs[..i];
      var raw := defs[i];
      if raw.JObj? {
        var name := FieldName(raw.fields);
        if name != "" {
          out := out + [raw];
        }
      }
    }
    assert defs[..|defs|] == defs;
  }

  /** What survives is named and comes from the input. */
  lemma {:induction false} NormalizeKeepsNamed(defs: seq<Json>, i: nat)
    requires i < |Normalize(defs)|
    ensures Named(Normalize(defs)[i]) && Normalize(defs)[i] in defs
  {
    var prev, last := defs[..|defs| - 1], defs[|defs| - 1];
    hide Named;
    assert defs == prev + [last];
    if i < |Normalize(prev)| {
      NormalizeKeepsNamed(prev, i);
    }
  }

  lemma {:induction false} NormalizeOfNamed(defs: seq<Json>)
    requires forall i :: 0 <= i < |defs| ==> Named(defs[i])
    ensures Normalize(defs) == defs
  {
    hide Named;
    if defs != [] {
      NormalizeOfNamed(defs[..|defs| - 1]);
    }
  }

  lemma NormalizeIsIdempotent(defs: seq<Json>)
    ensures Normalize(Normalize(defs)) == Normalize(defs)
  {
    var kept := Normalize(defs);
    forall i | 0 <= i < |kept|
      ensures Named(kept[i])
    {
      NormalizeKeepsNamed(defs, i);
    }
    NormalizeOfNamed(kept);
  }

  /** The definition carries its canonical, stripped name. */
  predicate Canonical(j: Json) {
    Named(j) && Field(j.fields, "name") == JStr(FieldName(j.fields))
  }

  /** The raw name is kept: " otp " is a field named otp, stored as " otp ". */
  lemma RawNameIsKept()
    ensures var defs := [JObj(map["name" := JStr(" otp ")])];
            Normalize(defs) == defs && FieldName(defs[0].fields) == "otp" && !Canonical(defs[0])
  {
    var d := JObj(map["name" := JStr(" otp ")]);
    assert " otp "[1..] == "otp " && "otp "[..3] == "otp";
    assert Strip(" otp ") == "otp";
    assert |" otp "| != |"otp"|;
    assert [d][..0] == [];
    assert Normalize([d]) == Normalize([]) + [d];
  }

  /** Every named definition survives. */
  lemma {:induction false} NormalizeKeepsAll(defs: seq<Json>, i: nat)
    requires i < |defs| && Named(defs[i])
    ensures defs[i] in Normalize(defs)
  {
    hide Named;
    var m := |defs| - 1;
    if i < m {
      NormalizeKeepsAll(defs[..m], i);
    }
  }

  /** Every kept definition has its canonical name if and only if every named
      definition of the input already does. */
  lemma CanonicalExactly(defs: seq<Json>)
    ensures (forall j :: j in Normalize(defs) ==> Canonical(j)) <==>
            (forall i :: 0 <= i < |defs| && Named(defs[i]) ==> Canonical(defs[i]))
  {
    var kept := Normalize(defs);
    hide Canonical, Named, Normalize;
    forall k | 0 <= k < |kept|
      ensures Named(kept[k]) && kept[k] in defs
    {
      NormalizeKeepsNamed(defs, k);
    }
    forall i | 0 <= i < |defs| && Named(defs[i])
      ensures defs[i] in kept
    {
      NormalizeKeepsAll(defs, i);
    }
  }

  // ----- The stored record -----

  datatype Gate = Gate(
    turnId: string, gateId: string, gateType: string, modelKey: string, prompt: string,
    fields: seq<Json>, choices: seq<Json>, phase: Option<string>, assets: Object,
    status: string, domain: Option<string>)

  const STATUSES := {"pending", "submitted", "resuming", "expired", "cancelled"}

  function Base(g: Gate): Object {
    map["turn_id" := JStr(g.turnId), "gate_id" := JStr(g.gateId), "gate_type" := JStr(g.gateType),
        "model_key" := JStr(g.modelKey), "prompt" := JStr(g.prompt), "fields" := JArr(Normalize(g.fields)),
        "choices" := JArr(g.choices), "assets" := JObj(g.assets), "status" := JStr(g.status)]
  }

  function With(o: Object, key: string, v: Option<string>): Object {
    if v.Some? then o[key := JStr(v.value)] else o
  }

  /** What `set_gate_pending` writes. */
  function Payload(g: Gate, show: Json -> string): Object {
    With(With(StripPayload(Base(g), show), "phase", g.phase), "domain", g.domain)
  }

  /** What Redis holds: nothing, text that is not JSON, or a document. */
  datatype Raw = Missing | Garbage | Doc(j: Json)

  datatype Parsed = NoGate | Invalid | Pending(o: Object)

  predicate HasText(o: Object, key: string) {
    Field(o, key).JStr? && Field(o, key).s != ""
  }

  predicate Acceptable(o: Object) {
    && HasText(o, "turn_id") && HasText(o, "gate_id") && HasText(o, "gate_type")
    && HasText(o, "model_key") && HasText(o, "prompt") && HasText(o, "status")
    && Field(o, "status").s in STATUSES
    && Field(o, "fields").JArr? && Field(o, "choices").JArr? && Field(o, "assets").JObj?
  }

  /** `_parse_gate_pending_raw`. */
  function Parse(raw: Raw, show: Json -> string): Parsed {
    match raw
    case Missing => NoGate
    case Garbage => Invalid
    case Doc(j) =>
      if !j.JObj? then Invalid
      else
        var o := StripPayload(j.fields, show);
        if !Acceptable(o) then Invalid
        else Pending(o["fields" := JArr(Normalize(o["fields"].items))])
  }

  /** A document is accepted exactly when its six strings are non-empty, its status
      is known and its three collections have the right kind; the result is the
      document without backend-only keys, with its fields normalised and every
      other value stripped. */
  lemma ParseIsExact(o: Object, show: Json -> string)
    ensures var p := Parse(Doc(JObj(o)), show);
            && (p.Pending? <==>
                  && (forall key :: key in {"turn_id", "gate_id", "gate_type", "model_key", "prompt", "status"} ==>
                        key in o && o[key].JStr? && o[key].s != "")
                  && o["status"].s in {"pending", "submitted", "resuming", "expired", "cancelled"}
                  && "fields" in o && o["fields"].JArr? && "choices" in o && o["choices"].JArr?
                  && "assets" in o && o["assets"].JObj?)
            && (!p.Pending? ==> p == Invalid)
            && (p.Pending? ==>
                  && (forall key :: key in p.o <==> key in o && !BackendOnly(key))
                  && p.o["fields"] == JArr(Normalize(o["fields"].items))
                  && forall key :: key in p.o && key != "fields" ==> p.o[key] == StripField(key, o[key], show))
  {
    PlainKeys();
    StripKeepsKinds(o, show);
    KeyTags();
    hide BackendOnly, Normalize, StripField;
  }

  /** Stripping keeps the kind of every public value, and scalars as they are. */
  lemma StripKeepsKinds(o: Object, show: Json -> string)
    ensures forall key :: key in o && !BackendOnly(key) ==>
              var v := StripField(key, o[key], show);
              && (v.JArr? <==> o[key].JArr?) && (v.JObj? <==> o[key].JObj?) && (o[key].JStr? || v.JStr? ==> v == o[key])
              && (v.JArr? && key != "choices" ==> v == o[key])
  {
    hide BackendOnly;
  }

  ghost predicate Complete(g: Gate) {
    && g.turnId != "" && g.gateId != "" && g.gateType != "" && g.modelKey != "" && g.prompt != ""
    && g.status in STATUSES
  }

  /** An object that stripping leaves alone. */
  ghost predicate Stable(o: Object, show: Json -> string) {
    forall k :: k in o ==> !BackendOnly(k) && StripField(k, o[k], show) == o[k]
  }

  lemma StrippedIsStable(o: Object, show: Json -> string)
    ensures Stable(StripPayload(o, show), show)
  {
    forall k | k in o && !BackendOnly(k)
      ensures StripField(k, StripField(k, o[k], show), show) == StripField(k, o[k], show)
    {
      StripFieldAgain(k, o[k], show);
    }
  }

  lemma StableIsUnstripped(o: Object, show: Json -> string)
    requires Stable(o, show)
    ensures StripPayload(o, show) == o
  {
  }

  lemma StableWithText(o: Object, key: string, v: string, show: Json -> string)
    requires Stable(o, show) && !BackendOnly(key)
    ensures Stable(o[key := JStr(v)], show)
  {
  }

  lemma ShortKeyIsPublic(key: string)
    requires |key| <= 9 && key != "_selector"
    ensures !BackendOnly(key)
  {
    assert forall k :: k in STRIP_EXACT ==> |k| >= 11;
    assert |key| == 9 ==> key[0..] == key;
  }

  /** Length and first letter tell the record's keys apart. */
  ghost predicate Tag(key: string, n: nat, c: char) {
    |key| == n && n > 0 && key[0] == c
  }

  lemma KeyTags()
    ensures Tag("turn_id", 7, 't') && Tag("gate_id", 7, 'g') && Tag("gate_type", 9, 'g') && Tag("model_key", 9, 'm')
    ensures Tag("prompt", 6, 'p') && Tag("fields", 6, 'f') && Tag("choices", 7, 'c') && Tag("assets", 6, 'a')
    ensures Tag("status", 6, 's') && Tag("phase", 5, 'p') && Tag("domain", 6, 'd') && Tag("_selector", 9, '_')
  {
  }

  lemma PlainKeys()
    ensures !BackendOnly("turn_id") && !BackendOnly("gate_id") && !BackendOnly("gate_type") && !BackendOnly("model_key")
    ensures !BackendOnly("prompt") && !BackendOnly("fields") && !BackendOnly("choices") && !BackendOnly("assets")
    ensures !BackendOnly("status") && !BackendOnly("phase") && !BackendOnly("domain")
  {
    KeyTags();
    hide BackendOnly;
    ShortKeyIsPublic("turn_id");
    ShortKeyIsPublic("gate_id");
    ShortKeyIsPublic("gate_type");
    ShortKeyIsPublic("model_key");
    ShortKeyIsPublic("prompt");
    ShortKeyIsPublic("fields");
    ShortKeyIsPublic("choices");
    ShortKeyIsPublic("assets");
    ShortKeyIsPublic("status");
    ShortKeyIsPublic("phase");
    ShortKeyIsPublic("domain");
  }

  /** The record holds what the gate says. */
  ghost predicate Holds(o: Object, g: Gate) {
    && Field(o, "turn_id") == JStr(g.turnId) && Field(o, "gate_id") == JStr(g.gateId)
    && Field(o, "gate_type") == JStr(g.gateType) && Field(o, "model_key") == JStr(g.modelKey)
    && Field(o, "prompt") == JStr(g.prompt) && Field(o, "status") == JStr(g.status)
    && Field(o, "fields") == JArr(Normalize(g.fields))
    && Field(o, "choices").JArr? && Field(o, "assets").JObj?
  }

  lemma BaseHolds(g: Gate)
    ensures Holds(Base(g), g)
  {
    KeyTags();
    hide Normalize;
  }

  lemma StripKeeps(o: Object, g: Gate, show: Json -> string)
    requires Holds(o, g)
    ensures Holds(StripPayload(o, show), g)
  {
    PlainKeys();
    KeyTags();
    hide BackendOnly, Normalize, Choices;
  }

  lemma WithKeeps(o: Object, g: Gate, key: string, v: Option<string>)
    requires Holds(o, g) && key in {"phase", "domain"}
    ensures Holds(With(o, key, v), g)
  {
    KeyTags();
    hide Normalize;
  }

  lemma PayloadIs(g: Gate, show: Json -> string)
    ensures Stable(Payload(g, show), show) && Holds(Payload(g, show), g)
  {
    var o0 := StripPayload(Base(g), show);
    BaseHolds(g);
    StripKeeps(Base(g), g, show);
    StrippedIsStable(Base(g), show);
    PlainKeys();
    hide BackendOnly, StripPayload, Stable, Holds, Base;
    var o1 := With(o0, "phase", g.phase);
    if g.phase.Some? {
      StableWithText(o0, "phase", g.phase.value, show);
    }
    WithKeeps(o0, g, "phase", g.phase);
    if g.domain.Some? {
      StableWithText(o1, "domain", g.domain.value, show);
    }
    WithKeeps(o1, g, "domain", g.domain);
  }

  const RECORD_KEYS :=
    {"turn_id", "gate_id", "gate_type", "model_key", "prompt", "fields", "choices", "assets", "status"}

  /** Nothing but the record's own keys and these, with these collections. */
  ghost predicate Collects(o: Object, extra: set<string>, choices: seq<Json>, assets: Object) {
    o.Keys == RECORD_KEYS + extra && Field(o, "choices") == JArr(choices) && Field(o, "assets") == JObj(assets)
  }

  lemma BaseCollects(g: Gate)
    ensures Collects(Base(g), {}, g.choices, g.assets)
  {
    KeyTags();
    hide Normalize;
  }

  lemma StripCollects(o: Object, choices: seq<Json>, assets: Object, show: Json -> string)
    requires Collects(o, {}, choices, assets)
    ensures Collects(StripPayload(o, show), {}, Choices(choices, show), StripPayload(assets, show))
  {
    PlainKeys();
    KeyTags();
    hide BackendOnly, Choices;
  }

  function Given(key: string, v: Option<string>): set<string> {
    if v.Some? then {key} else {}
  }

  lemma WithCollects(o: Object, extra: set<string>, choices: seq<Json>, assets: Object, key: string, v: Option<string>)
    requires Collects(o, extra, choices, assets) && key in {"phase", "domain"}
    ensures Collects(With(o, key, v), extra + Given(key, v), choices, assets)
    ensures v.Some? ==> Field(With(o, key, v), key) == JStr(v.value)
  {
    KeyTags();
  }

  /** The stored record, key by key: the required strings and the status as given,
      the named fields, the public choices, the stripped assets, and phase and
      domain exactly when they are given; nothing else. */
  lemma RecordIsExact(g: Gate, show: Json -> string)
    ensures Holds(Payload(g, show), g)
    ensures Collects(Payload(g, show), Given("phase", g.phase) + Given("domain", g.domain),
                     Choices(g.choices, show), StripPayload(g.assets, show))
    ensures g.phase.Some? ==> Field(Payload(g, show), "phase") == JStr(g.phase.value)
    ensures g.domain.Some? ==> Field(Payload(g, show), "domain") == JStr(g.domain.value)
  {
    PayloadIs(g, show);
    BaseCollects(g);
    StripCollects(Base(g), g.choices, g.assets, show);
    var o0 := StripPayload(Base(g), show);
    assert Payload(g, show) == With(With(o0, "phase", g.phase), "domain", g.domain);
    hide Payload, Stable;
    var choices, assets := Choices(g.choices, show), StripPayload(g.assets, show);
    hide StripPayload, Choices, Collects, Holds, Base, With, Field, Given;
    WithCollects(o0, {}, choices, assets, "phase", g.phase);
    var o1 := With(o0, "phase", g.phase);
    assert {} + Given("phase", g.phase) == Given("phase", g.phase);
    WithCollects(o1, Given("phase", g.phase), choices, assets, "domain", g.domain);
    PhaseIsNotDomain(o1, g.domain);
  }

  lemma PhaseIsNotDomain(o: Object, v: Option<string>)
    ensures Field(With(o, "domain", v), "phase") == Field(o, "phase")
  {
    assert |"phase"| != |"domain"|;
  }

  lemma HeldIsAcceptable(o: Object, g: Gate)
    requires Holds(o, g)
    ensures Acceptable(o) <==> Complete(g)
    ensures Acceptable(o) ==> o["fields" := JArr(Normalize(o["fields"].items))] == o
  {
    NormalizeIsIdempotent(g.fields);
    assert "" !in STATUSES;
    hide Normalize;
  }

  /** What `set_gate_pending` stored parses back unchanged exactly when the
      required strings are non-empty and the status is a known one; otherwise
      reading it fails. */
  lemma RoundTrip(g: Gate, show: Json -> string)
    ensures Parse(Doc(JObj(Payload(g, show))), show) ==
            if Complete(g) then Pending(Payload(g, show)) else Invalid
  {
    PayloadIs(g, show);
    StableIsUnstripped(Payload(g, show), show);
    HeldIsAcceptable(Payload(g, show), g);
    hide Payload, Stable, StripPayload, Normalize, Holds, Acceptable, Complete;
  }

  lemma StatusKeepsAcceptable(o: Object, status: string)
    requires Acceptable(o) && status in STATUSES
    ensures Acceptable(o["status" := JStr(status)])
    ensures o["status" := JStr(status)]["fields"] == o["fields"]
  {
    KeyTags();
    assert "" !in STATUSES;
  }

  lemma FieldsKeepAcceptable(o: Object, fields: seq<Json>)
    requires Acceptable(o)
    ensures Acceptable(o["fields" := JArr(fields)])
  {
    KeyTags();
  }

  lemma FieldsKeepStable(o: Object, fields: seq<Json>, show: Json -> string)
    requires Stable(o, show)
    ensures Stable(o["fields" := JArr(fields)], show)
  {
    KeyTags();
    PlainKeys();
    hide BackendOnly;
  }

  lemma ReparsedIs(o: Object, defs: seq<Json>, show: Json -> string)
    requires Stable(o, show) && Acceptable(o) && Field(o, "fields") == JArr(Normalize(defs))
    ensures Parse(Doc(JObj(o)), show) == Pending(o)
  {
    StableIsUnstripped(o, show);
    NormalizeIsIdempotent(defs);
    hide Stable, StripPayload, Normalize;
    assert o["fields" := JArr(Normalize(o["fields"].items))] == o;
  }

  /** A parsed record is a fixed point of parsing, also after a status change:
      updating the status neither loses nor alters anything else. */
  lemma ParseIsStable(raw: Raw, status: string, show: Json -> string)
    requires Parse(raw, show).Pending? && status in STATUSES
    ensures var o := Parse(raw, show).o;
            && Parse(Doc(JObj(o)), show) == Pending(o)
            && Parse(Doc(JObj(o["status" := JStr(status)])), show) == Pending(o["status" := JStr(status)])
  {
    var o0 := StripPayload(raw.j.fields, show);
    var o := Parse(raw, show).o;
    StrippedIsStable(raw.j.fields, show);
    var defs := o0["fields"].items;
    hide StripPayload, Stable, Acceptable, Normalize;
    FieldsKeepStable(o0, Normalize(defs), show);
    FieldsKeepAcceptable(o0, Normalize(defs));
    ReparsedIs(o, defs, show);
    PlainKeys();
    StableWithText(o, "status", status, show);
    StatusKeepsAcceptable(o, status);
    ReparsedIs(o["status" := JStr(status)], defs, show);
  }

  /** The Redis records, one per conversation. */
  class GateStore {
    const show: Json -> string
    var records: map<int, Json>

    constructor (show: Json -> string)
      ensures this.show == show && records == map[]
    {
      this.show := show;
      records := map[];
    }

    function Get(conversation: int): Parsed
      reads this
    {
      Parse(if conversation in records then Doc(records[conversation]) else Missing, show)
    }

    method SetGatePending(conversation: int, g: Gate)
      modifies this
      ensures records == old(records)[conversation := JObj(Payload(g, show))]
      ensures Get(conversation) == if Complete(g) then Pending(Payload(g, show)) else Invalid
    {
      var o := StripPayload(Base(g), show);
      if g.phase.Some? {
        o := o["phase" := JStr(g.phase.value)];
      }
      if g.domain.Some? {
        o := o["domain" := JStr(g.domain.value)];
      }
      records := records[conversation := JObj(o)];
      RoundTrip(g, show);
    }

    /** Raises, and changes nothing, when the stored record does not parse. */
    method UpdateStatus(conversation: int, status: string) returns (raised: bool)
      requires status in STATUSES
      modifies this
      ensures raised == old(Get(conversation)).Invalid?
      ensures old(Get(conversation)).Pending? ==>
                Get(conversation) == Pending(old(Get(conversation)).o["status" := JStr(status)])
      ensures !old(Get(conversation)).Pending? ==> records == old(records)
      ensures forall c :: c != conversation ==> Get(c) == old(Get(c))
    {
      var pending := Get(conversation);
      if pending.Pending? {
        ParseIsStable(Doc(records[conversation]), status, show);
        hide Parse;
        records := records[conversation := JObj(pending.o["status" := JStr(status)])];
      }
      return pending.Invalid?;
    }
  }
}
