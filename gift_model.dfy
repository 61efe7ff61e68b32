/** The `Gift` schema as declared in models/Gift.js: the document a `new Gift({...})`
    produces (casts and defaults) and the validity predicate `save()` checks.

    This is the schema-level view used by the admin's gift creation. The gift-request
    routes (routes/gifts.js) read and write fields this schema does not declare
    (`status`, `accessEnabled`, `expiresAt`, ...) and never set the required `templateId`;
    they are modelled on their own record in module GiftRoutes, and nothing here claims
    that the two views agree. */
module GiftModel {

  import opened Wrappers
  import opened JsValues
  import Strings
  import UserModel

  const TEMPLATE_IDS: seq<string> :=
    ["minimalist-love", "grand-anniversary", "birthday-celebration", "romantic-evening"]
  const MEMORIES: seq<string> := ["birthday", "anniversary", "valentines"]
  const PLANS: seq<string> := ["momentum", "everlasting"]

  /** A stored gift document as the schema declares it. */
  datatype GiftDoc = GiftDoc(
    id: UserModel.Id,
    user: Option<UserModel.Id>,
    templateId: Option<string>,
    scenarios: seq<Option<string>>,
    memory: Option<string>,
    plan: Option<string>,
    photos: seq<Option<string>>,
    audio: Option<string>,
    lyrics: Option<string>,
    createdAt: UserModel.Time)

  /** The object handed to `new Gift({...})`; `Undefined` marks a field left out. */
  datatype GiftInput = GiftInput(
    user: Option<UserModel.Id>,
    templateId: Json,
    scenarios: Json,
    memory: Json,
    plan: Json,
    photos: Json,
    audio: Json,
    lyrics: Json)

  /** Casting each element of an array for a `[String]` path: a null or undefined element
      is kept as null, and a single element that does not cast fails the whole cast. */
  function CastStrings(items: seq<Json>): (r: Option<seq<Option<string>>>)
    ensures r.Some? <==> forall k :: 0 <= k < |items| ==> CastString(items[k]).Some?
    ensures r.Some? ==> |r.value| == |items|
    ensures r.Some? ==> forall k :: 0 <= k < |items| ==> Some(r.value[k]) == CastString(items[k])
  {
    if |items| == 0 then Some([])
    else
      match (CastString(items[0]), CastStrings(items[1..]))
      case (Some(first), Some(rest)) =>
        assert forall k :: 0 < k < |items| ==> items[k] == items[1..][k - 1];
        Some([first] + rest)
      case (Some(_), None) =>
        assert forall k :: 0 < k < |items| ==> items[k] == items[1..][k - 1];
        None
      case _ => None
  }

  /** A `[String]` path with `default: []`. */
  function CastStringArray(v: Json): Option<seq<Option<string>>> {
    match v
    case Undefined => Some([])
    case Arr(items) => CastStrings(items)
    case _ => None
  }

  /** A `String` path with a default for `undefined`. */
  function CastStringOr(v: Json, default: Option<string>): Option<Option<string>> {
    if v == Undefined then Some(default) else CastString(v)
  }

  /** `new Gift(input)`: every path cast, and the schema defaults for left-out fields
      (`scenarios` and `photos` `[]`, `memory`, `plan` and `audio` null, `lyrics` `''`).
      `None` is a cast error. */
  function FromInput(input: GiftInput, id: UserModel.Id, now: UserModel.Time): Option<GiftDoc> {
    match (CastString(input.templateId), CastStringArray(input.scenarios),
           CastStringOr(input.memory, None), CastStringOr(input.plan, None))
    case (Some(templateId), Some(scenarios), Some(memory), Some(plan)) =>
      (match (CastStringArray(input.photos), CastStringOr(input.audio, None),
              CastStringOr(input.lyrics, Some("")))
       case (Some(photos), Some(audio), Some(lyrics)) =>
         Some(GiftDoc(id, input.user, templateId, scenarios, memory, plan, photos, audio,
                      lyrics, now))
       case _ => None)
    case _ => None
  }

  /** The validators `save()` runs: `user` and `templateId` are required, and `templateId`,
      `memory` and `plan` must be one of their listed values when present. */
  predicate SchemaValid(d: GiftDoc) {
    && d.user.Some?
    && d.templateId.Some? && d.templateId.value in TEMPLATE_IDS
    && (d.memory.None? || d.memory.value in MEMORIES)
    && (d.plan.None? || d.plan.value in PLANS)
  }

  /** The schema defaults: a gift given only its owner and template gets empty
      `scenarios` and `photos`, null `memory`, `plan` and `audio`, and empty `lyrics`. */
  lemma Defaults(user: Option<UserModel.Id>, templateId: Json, id: UserModel.Id, now: UserModel.Time)
    requires templateId.Str?
    ensures var d := FromInput(GiftInput(user, templateId, Undefined, Undefined, Undefined,
                                         Undefined, Undefined, Undefined), id, now);
            d.Some? && d.value.scenarios == [] && d.value.photos == [] &&
            d.value.memory.None? && d.value.plan.None? && d.value.audio.None? &&
            d.value.lyrics == Some("") && d.value.user == user &&
            d.value.templateId == Some(templateId.s)
  {
  }

  /** Text produced by casting a number or a boolean is never one of the template ids. */
  lemma CastTextIsNoTemplate(v: Json)
    requires v.Num? || v.Bool?
    ensures CastString(v).Some? && CastString(v).value.Some?
    ensures CastString(v).value.value !in TEMPLATE_IDS
  {
    var t := CastString(v).value.value;
    if v.Num? {
      var d := Strings.NatToString(if v.n < 0 then -v.n else v.n);
      assert Strings.IsDigit(d[0]);
      assert t[0] == '-' || Strings.IsDigit(t[0]);
    }
  }

  /** With every optional field left to its default, a gift is valid exactly when it has
      an owner and its template id is one of the four listed names: given as a string, as
      the string `_id` of an object, or as the text of a date. A number or a boolean is
      never a valid template id. */
  lemma {:induction false} ValidWithDefaults(input: GiftInput, id: UserModel.Id, now: UserModel.Time)
    requires input.scenarios == Undefined && input.memory == Undefined && input.plan == Undefined
    requires input.photos == Undefined && input.audio == Undefined && input.lyrics == Undefined
    requires FromInput(input, id, now).Some?
    ensures SchemaValid(FromInput(input, id, now).value) <==>
              && input.user.Some?
              && ((input.templateId.Str? && input.templateId.s in TEMPLATE_IDS)
                  || (StringId(input.templateId).Some? && StringId(input.templateId).value in TEMPLATE_IDS)
                  || (input.templateId.Date? && input.templateId.text in TEMPLATE_IDS))
  {
    if input.templateId.Num? || input.templateId.Bool? {
      CastTextIsNoTemplate(input.templateId);
    }
  }
}
