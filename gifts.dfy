/** Gift access control (routes/gifts.js): the lazy auto-expiry sweep over one user's
    gifts, the validation and construction of a gift request, and the two read gates
    (through a shared link carrying an encrypted user id, and the plain detail read).

    The gift table is a class whose methods change it in place; each method is tied to a
    pure function of the old table, and the properties the route promises are lemmas
    about those functions. */
module GiftRoutes {

  import opened Wrappers
  import opened JsValues
  import Strings
  import UserModel
  import Encryption

  type Id = UserModel.Id
  type Time = UserModel.Time

  /** A gift as this route reads and writes it. Fields the route never sets are at their
      absent value: `accessEnabled` false, `expiresAt` null, `permanentlyDeleted` false. */
  datatype Gift = Gift(
    id: Id,
    user: Id,
    status: string,
    recipientName: string,
    occasion: Json,
    occasionDate: Time,
    scenarios: seq<string>,
    songGenre: string,
    photos: seq<Json>,
    photoPublicIds: Json,
    plan: Json,
    message: string,
    submittedAt: Time,
    accessEnabled: bool,
    expiresAt: Option<Time>,
    permanentlyDeleted: bool)

  // ---------------------------------------------------------------------------------
  // The auto-expiry sweep (`autoExpireGiftsForUser`)

  /** The filter of the sweep's `updateMany`: the user's gift, not permanently deleted,
      enabled, with an expiry at or before `now`. */
  predicate SweepHits(g: Gift, userId: Id, now: Time) {
    g.user == userId && !g.permanentlyDeleted && g.accessEnabled &&
    g.expiresAt.Some? && g.expiresAt.value <= now
  }

  /** The table after `updateMany(filter, { $set: { accessEnabled: false } })`. */
  function Sweep(rows: map<Id, Gift>, userId: Id, now: Time): map<Id, Gift> {
    map id | id in rows :: if SweepHits(rows[id], userId, now) then rows[id].(accessEnabled := false) else rows[id]
  }

  /** The sweep turns off `accessEnabled` on exactly the gifts its filter selects; no
      other gift changes, and of a selected gift no other field. */
  lemma SweepExactly(rows: map<Id, Gift>, userId: Id, now: Time)
    ensures Sweep(rows, userId, now).Keys == rows.Keys
    ensures forall id :: id in rows ==>
      (Sweep(rows, userId, now)[id] != rows[id] <==> SweepHits(rows[id], userId, now))
    ensures forall id :: id in rows ==>
      Sweep(rows, userId, now)[id] == rows[id].(accessEnabled := Sweep(rows, userId, now)[id].accessEnabled)
    ensures forall id :: id in rows ==>
      (Sweep(rows, userId, now)[id].accessEnabled <==> rows[id].accessEnabled && !SweepHits(rows[id], userId, now))
  {
  }

  /** After a sweep no gift of the user is still enabled past its expiry. */
  lemma SweepLeavesNoHit(rows: map<Id, Gift>, userId: Id, now: Time)
    ensures forall id :: id in Sweep(rows, userId, now) ==> !SweepHits(Sweep(rows, userId, now)[id], userId, now)
  {
  }

  /** A second sweep at the same time changes nothing. */
  lemma SweepIdempotent(rows: map<Id, Gift>, userId: Id, now: Time)
    ensures Sweep(Sweep(rows, userId, now), userId, now) == Sweep(rows, userId, now)
  {
    var once := Sweep(rows, userId, now);
    var twice := Sweep(once, userId, now);
    assert twice.Keys == once.Keys;
    forall id | id in once ensures twice[id] == once[id] {
      assert !SweepHits(once[id], userId, now);
    }
  }

  // ---------------------------------------------------------------------------------
  // POST /request: validation and construction

  /** The fields of the request body the handler reads; `Undefined` is a missing field. */
  datatype RequestBody = RequestBody(
    recipientName: Json,
    occasion: Json,
    occasionDate: Json,
    scenarios: Json,
    songGenre: Json,
    photos: Json,
    photoPublicIds: Json,
    plan: Json,
    message: Json)

  /** An error reply: its status code and error text. */
  datatype Rejection = Rejection(status: int, error: string)

  const MIN_SCENARIO_LENGTH := 150
  const MAX_PHOTOS := 4
  const REQUIRED_SCENARIOS := 3
  const SERVER_ERROR := Rejection(500, "Server error")

  /** A request that passed validation, with its fields converted as the handler stores
      them. */
  datatype Draft = Draft(
    recipientName: string,
    occasion: Json,
    occasionDate: Time,
    scenarios: seq<string>,
    songGenre: string,
    photos: seq<Json>,
    photoPublicIds: Json,
    plan: Json,
    message: string)

  function ScenarioTooShort(i: nat): Rejection {
    Rejection(400, "Scenario " + Strings.NatToString(i + 1) + " must be at least 150 characters long")
  }

  /** `s.trim().length >= 150`, the length counted in UTF-16 code units as JavaScript
      does. */
  predicate LongEnough(s: string) {
    Strings.Utf16Length(Strings.Trim(s)) >= MIN_SCENARIO_LENGTH
  }

  /** The length rule counts code units, not characters: 75 characters from outside the
      Basic Multilingual Plane (here U+1F600) make a long enough scenario. */
  lemma AstralScenarioLongEnough()
    ensures LongEnough(Strings.Repeat('\U{1F600}', 75))
  {
    var s := Strings.Repeat('\U{1F600}', 75);
    assert Strings.TrimStart(s) == s;
    assert Strings.TrimEnd(s) == s;
    Strings.Utf16LengthOfRepeat('\U{1F600}', 75);
  }

  /** The scenario loop from index `i` on: the first falsy or short entry is a 400 naming
      it; a truthy entry that is not a string makes `trim` throw, a 500. On success, the
      entries as strings. */
  function CheckScenarios(items: seq<Json>, i: nat): (r: Result<seq<string>, Rejection>)
    requires i <= |items|
    ensures r.Ok? ==> |r.value| == |items| - i
    ensures r.Err? ==> r.error.status == 400 || r.error == SERVER_ERROR
    ensures r.Ok? ==> forall k :: 0 <= k < |r.value| ==>
      items[i + k] == Str(r.value[k]) && LongEnough(r.value[k])
    ensures (forall k :: i <= k < |items| ==> items[k].Str? && LongEnough(items[k].s))
      ==> r.Ok?
    decreases |items| - i
  {
    if i == |items| then Ok([])
    else if !Truthy(items[i]) then Err(ScenarioTooShort(i))
    else if !items[i].Str? then Err(SERVER_ERROR)
    else if !LongEnough(items[i].s) then Err(ScenarioTooShort(i))
    else
      var next := CheckScenarios(items, i + 1);
      if next.Err? then Err(next.error)
      else
        ScenariosShift(items, i, next.value);
        Ok([items[i].s] + next.value)
  }

  /** Putting the checked entry `i` in front of the checked entries after it lines every
      entry up with its result. */
  lemma ScenariosShift(items: seq<Json>, i: nat, rest: seq<string>)
    requires i < |items| && items[i].Str? && LongEnough(items[i].s)
    requires |rest| == |items| - (i + 1)
    requires forall k :: 0 <= k < |rest| ==> items[i + 1 + k] == Str(rest[k]) && LongEnough(rest[k])
    ensures var all := [items[i].s] + rest;
      forall k :: 0 <= k < |all| ==> items[i + k] == Str(all[k]) && LongEnough(all[k])
  {
    var all := [items[i].s] + rest;
    forall k | 0 < k < |all|
      ensures items[i + k] == Str(all[k]) && LongEnough(all[k])
    {
      assert all[k] == rest[k - 1];
      assert items[i + k] == items[i + 1 + (k - 1)];
    }
  }

  /** `message?.trim() || ''`: null or undefined gives `''`; a non-string makes the call
      throw. */
  function TrimMessage(message: Json): Result<string, Rejection> {
    if Nullish(message) then Ok("")
    else if message.Str? then Ok(Strings.Trim(message.s))
    else Err(SERVER_ERROR)
  }

  /** The handler's checks in their order, then the conversions made while building the
      gift. `parseDate` is `new Date(occasionDate)` (`None` for an invalid date). */
  function ValidateRequest(body: RequestBody, parseDate: Json -> Option<Time>): Result<Draft, Rejection> {
    if !Truthy(body.recipientName) || !Truthy(body.occasion) || !Truthy(body.occasionDate)
       || !Truthy(body.songGenre) || !Truthy(body.plan) then
      Err(Rejection(400, "Missing required fields"))
    else if !body.photos.Arr? || |body.photos.items| == 0 then
      Err(Rejection(400, "At least one photo is required"))
    else if |body.photos.items| > MAX_PHOTOS then
      Err(Rejection(400, "Maximum 4 photos allowed"))
    else if !body.scenarios.Arr? || |body.scenarios.items| < REQUIRED_SCENARIOS then
      Err(Rejection(400, "All 3 scenarios are required"))
    else
      match CheckScenarios(body.scenarios.items, 0)
      case Err(e) => Err(e)
      case Ok(scenarios) =>
        match parseDate(body.occasionDate)
        case None => Err(Rejection(400, "Invalid occasion date"))
        case Some(date) =>
          if !body.recipientName.Str? || !body.songGenre.Str? then Err(SERVER_ERROR)
          else
            match TrimMessage(body.message)
            case Err(e) => Err(e)
            case Ok(message) =>
              Ok(Draft(Strings.Trim(body.recipientName.s), body.occasion, date,
                       scenarios[..REQUIRED_SCENARIOS], Strings.Trim(body.songGenre.s),
                       body.photos.items,
                       Or(body.photoPublicIds, Arr([])), body.plan, message))
  }

  /** The request's acceptance conditions, stated on the body alone. */
  ghost predicate Acceptable(body: RequestBody, parseDate: Json -> Option<Time>) {
    && Truthy(body.recipientName) && Truthy(body.occasion) && Truthy(body.occasionDate)
    && Truthy(body.songGenre) && Truthy(body.plan)
    && body.photos.Arr? && 1 <= |body.photos.items| <= MAX_PHOTOS
    && body.scenarios.Arr? && |body.scenarios.items| >= REQUIRED_SCENARIOS
    && (forall k :: 0 <= k < |body.scenarios.items| ==>
          body.scenarios.items[k].Str? && LongEnough(body.scenarios.items[k].s))
    && parseDate(body.occasionDate).Some?
  }

  /** A request is accepted exactly when all five required fields are present, there are
      1 to 4 photos, at least 3 scenarios each (including any past the third) at least 150
      UTF-16 code units once trimmed, the date parses, and the fields the handler trims are
      strings. Every rejection is a 400, except a field of the wrong type, a 500. */
  lemma {:induction false} AcceptedExactly(body: RequestBody, parseDate: Json -> Option<Time>)
    ensures ValidateRequest(body, parseDate).Ok? <==>
      Acceptable(body, parseDate) && body.recipientName.Str? && body.songGenre.Str?
      && (Nullish(body.message) || body.message.Str?)
    ensures ValidateRequest(body, parseDate).Err? ==>
      ValidateRequest(body, parseDate).error.status in {400, 500}
  {
    if body.scenarios.Arr? && |body.scenarios.items| >= REQUIRED_SCENARIOS {
      var r := CheckScenarios(body.scenarios.items, 0);
      if r.Ok? {
        assert forall k :: 0 <= k < |body.scenarios.items| ==>
          body.scenarios.items[k] == Str(r.value[k]);
      }
    }
  }

  /** A structurally valid request whose occasion date does not parse is refused with
      400. */
  lemma BadDateRejected(body: RequestBody, parseDate: Json -> Option<Time>)
    requires Truthy(body.recipientName) && Truthy(body.occasion) && Truthy(body.occasionDate)
    requires Truthy(body.songGenre) && Truthy(body.plan)
    requires body.photos.Arr? && 1 <= |body.photos.items| <= MAX_PHOTOS
    requires body.scenarios.Arr? && |body.scenarios.items| >= REQUIRED_SCENARIOS
    requires forall k :: 0 <= k < |body.scenarios.items| ==>
      body.scenarios.items[k].Str? && LongEnough(body.scenarios.items[k].s)
    requires parseDate(body.occasionDate).None?
    ensures ValidateRequest(body, parseDate) == Err(Rejection(400, "Invalid occasion date"))
  {
  }

  /** What an accepted request stores: the first three scenarios only, recipient name and
      song genre trimmed, the message trimmed or `''`, the parsed date. */
  lemma {:induction false} DraftContents(body: RequestBody, parseDate: Json -> Option<Time>)
    requires ValidateRequest(body, parseDate).Ok?
    ensures var d := ValidateRequest(body, parseDate).value;
      && |d.scenarios| == REQUIRED_SCENARIOS
      && (forall k :: 0 <= k < REQUIRED_SCENARIOS ==> body.scenarios.items[k] == Str(d.scenarios[k]))
      && d.recipientName == Strings.Trim(body.recipientName.s)
      && d.songGenre == Strings.Trim(body.songGenre.s)
      && d.message == (if body.message.Str? then Strings.Trim(body.message.s) else "")
      && Some(d.occasionDate) == parseDate(body.occasionDate)
      && d.photos == body.photos.items
  {
    var r := CheckScenarios(body.scenarios.items, 0);
    assert r.Ok?;
    assert forall k :: 0 <= k < |body.scenarios.items| ==> body.scenarios.items[k] == Str(r.value[k]);
  }

  /** The gift an accepted request creates: status `pending`, owned by the caller, with
      the absent-field values for the access fields. */
  function NewGift(d: Draft, owner: Id, id: Id, now: Time): (g: Gift)
    ensures g.status == "pending" && g.user == owner && g.id == id
    ensures !g.accessEnabled && g.expiresAt.None? && !g.permanentlyDeleted
  {
    Gift(id, owner, "pending", d.recipientName, d.occasion, d.occasionDate, d.scenarios,
         d.songGenre, d.photos, d.photoPublicIds, d.plan, d.message, now,
         false, None, false)
  }

  // ---------------------------------------------------------------------------------
  // The read gates

  /** Why a gate refused. */
  datatype Denial = InvalidLink | DifferentUser | NotFound | NotOwner | Deleted | Disabled | Expired

  datatype GateOutcome = Denied(reason: Denial) | Granted(gift: Gift)

  function Status(o: GateOutcome): int {
    match o
    case Granted(_) => 200
    case Denied(InvalidLink) => 400
    case Denied(NotFound) => 404
    case Denied(_) => 403
  }

  /** The `error` text of a refusal, on the link path or on the plain detail path; the
      detail path reports a disabled gift as expired. */
  function ErrorText(d: Denial, viaLink: bool): string {
    match d
    case InvalidLink => "Invalid gift link"
    case DifferentUser => "Access denied"
    case NotFound => "Gift not found"
    case NotOwner => "Access denied"
    case Deleted => "Gift permanently deleted"
    case Disabled => if viaLink then "Gift access disabled" else "Gift access expired"
    case Expired => "Gift access expired"
  }

  /** The `intendedForDifferentUser` flag of the reply. */
  predicate IntendedForDifferentUser(o: GateOutcome) {
    o == Denied(DifferentUser)
  }

  /** Steps 4 to 8, common to both gates, on the swept table: lookup, owner, tombstone,
      enabled, expiry; an expired gift is switched off before the refusal. `now` is the
      clock reading of step 8. */
  function CheckGift(rows: map<Id, Gift>, giftId: Id, caller: Id, now: Time): (GateOutcome, map<Id, Gift>) {
    if giftId !in rows then (Denied(NotFound), rows)
    else
      var g := rows[giftId];
      if g.user != caller then (Denied(NotOwner), rows)
      else if g.permanentlyDeleted then (Denied(Deleted), rows)
      else if !g.accessEnabled then (Denied(Disabled), rows)
      else if g.expiresAt.Some? && now > g.expiresAt.value then
        (Denied(Expired), rows[giftId := g.(accessEnabled := false)])
      else (Granted(g), rows)
  }

  /** GET /:id: sweep at `sweepNow`, then the checks at `now`. */
  function DetailGate(rows: map<Id, Gift>, giftId: Id, caller: Id, sweepNow: Time, now: Time)
    : (GateOutcome, map<Id, Gift>)
  {
    CheckGift(Sweep(rows, caller, sweepNow), giftId, caller, now)
  }

  /** The link decoder: `decodeURIComponent` (`None` when it throws) followed by
      `decryptUserId`. */
  function DecodeLink(c: Encryption.Crypto, env: Option<string>, uriDecode: string -> Option<string>,
                      token: string): Result<string, string>
  {
    match uriDecode(token)
    case None => Err(Encryption.DECRYPT_FAILED)
    case Some(text) => Encryption.DecryptUserId(c, env, text)
  }

  /** GET /:id/:encryptedUserId: decode the token, match it against the caller, then as
      the detail read. */
  function LinkGate(c: Encryption.Crypto, env: Option<string>, uriDecode: string -> Option<string>,
                    rows: map<Id, Gift>, giftId: Id, token: string, caller: Id,
                    sweepNow: Time, now: Time): (GateOutcome, map<Id, Gift>)
  {
    match DecodeLink(c, env, uriDecode, token)
    case Err(_) => (Denied(InvalidLink), rows)
    case Ok(intended) =>
      if caller != intended then (Denied(DifferentUser), rows)
      else DetailGate(rows, giftId, caller, sweepNow, now)
  }

  /** A link that does not decode is a 400, and one made for someone else a 403 with
      `intendedForDifferentUser`; both are decided before the sweep and the lookup, so the
      table is untouched and the answer is the same whether or not the gift exists. */
  lemma LinkEarlyExits(c: Encryption.Crypto, env: Option<string>, uriDecode: string -> Option<string>,
                       rows: map<Id, Gift>, other: map<Id, Gift>, giftId: Id, token: string,
                       caller: Id, sweepNow: Time, now: Time)
    requires DecodeLink(c, env, uriDecode, token).Err? ||
             DecodeLink(c, env, uriDecode, token).value != caller
    ensures var (o, after) := LinkGate(c, env, uriDecode, rows, giftId, token, caller, sweepNow, now);
      && after == rows
      && (DecodeLink(c, env, uriDecode, token).Err? ==> o == Denied(InvalidLink) && Status(o) == 400)
      && (DecodeLink(c, env, uriDecode, token).Ok? ==> IntendedForDifferentUser(o) && Status(o) == 403)
      && o == LinkGate(c, env, uriDecode, other, giftId, token, caller, sweepNow, now).0
  {
  }

  /** A link that decodes to the caller behaves exactly as the detail read. */
  lemma LinkAsDetail(c: Encryption.Crypto, env: Option<string>, uriDecode: string -> Option<string>,
                     rows: map<Id, Gift>, giftId: Id, token: string, caller: Id, sweepNow: Time, now: Time)
    requires DecodeLink(c, env, uriDecode, token) == Ok(caller)
    ensures LinkGate(c, env, uriDecode, rows, giftId, token, caller, sweepNow, now)
         == DetailGate(rows, giftId, caller, sweepNow, now)
  {
  }

  /** The decision of the detail read, stated on the gift as stored before the sweep:
      the first failing check decides, in the order lookup, owner, tombstone, enabled
      (after the sweep), expiry. */
  lemma {:induction false} DetailDecision(rows: map<Id, Gift>, giftId: Id, caller: Id, sweepNow: Time, now: Time)
    ensures var o := DetailGate(rows, giftId, caller, sweepNow, now).0;
      && (o == Denied(NotFound) <==> giftId !in rows)
      && (o == Denied(NotOwner) <==> giftId in rows && rows[giftId].user != caller)
      && (o == Denied(Deleted) <==>
            giftId in rows && rows[giftId].user == caller && rows[giftId].permanentlyDeleted)
      && (o == Denied(Disabled) <==>
            giftId in rows && rows[giftId].user == caller && !rows[giftId].permanentlyDeleted &&
            (!rows[giftId].accessEnabled ||
             (rows[giftId].expiresAt.Some? && rows[giftId].expiresAt.value <= sweepNow)))
      && (o == Denied(Expired) <==>
            giftId in rows && rows[giftId].user == caller && !rows[giftId].permanentlyDeleted &&
            rows[giftId].accessEnabled && rows[giftId].expiresAt.Some? &&
            sweepNow < rows[giftId].expiresAt.value < now)
      && (o.Granted? <==>
            giftId in rows && rows[giftId].user == caller && !rows[giftId].permanentlyDeleted &&
            rows[giftId].accessEnabled &&
            (rows[giftId].expiresAt.None? ||
             (sweepNow < rows[giftId].expiresAt.value && now <= rows[giftId].expiresAt.value)))
      && (o.Granted? ==> o.gift == rows[giftId])
      && (o.Denied? ==> o.reason != InvalidLink && o.reason != DifferentUser)
  {
    var swept := Sweep(rows, caller, sweepNow);
    if giftId in rows {
      assert giftId in swept;
      var g := rows[giftId];
      if SweepHits(g, caller, sweepNow) {
        assert swept[giftId] == g.(accessEnabled := false);
      } else {
        assert swept[giftId] == g;
      }
    }
  }

  /** A gift is handed out only if it is the caller's, not deleted, enabled, and not past
      its expiry (unset, or not before now). */
  lemma GrantedOnlyIfViewable(rows: map<Id, Gift>, giftId: Id, caller: Id, sweepNow: Time, now: Time)
    requires DetailGate(rows, giftId, caller, sweepNow, now).0.Granted?
    ensures var g := DetailGate(rows, giftId, caller, sweepNow, now).0.gift;
      g.user == caller && !g.permanentlyDeleted && g.accessEnabled &&
      (g.expiresAt.None? || g.expiresAt.value >= now)
  {
    DetailDecision(rows, giftId, caller, sweepNow, now);
  }

  /** The only write of a gate besides the sweep: an expired gift has `accessEnabled`
      switched off, and nothing else changes. */
  lemma {:induction false} GateWrites(rows: map<Id, Gift>, giftId: Id, caller: Id, sweepNow: Time, now: Time)
    ensures var (o, after) := DetailGate(rows, giftId, caller, sweepNow, now);
      var swept := Sweep(rows, caller, sweepNow);
      && after.Keys == rows.Keys
      && (forall id :: id in rows && id != giftId ==> after[id] == swept[id])
      && (o != Denied(Expired) ==> after == swept)
      && (o == Denied(Expired) ==> after == swept[giftId := swept[giftId].(accessEnabled := false)])
  {
    SweepExactly(rows, caller, sweepNow);
  }

  /** When the sweep and the check read the same clock, the sweep has already switched
      off every expired gift of the caller: the check's own expiry write never fires. */
  lemma {:induction false} SameClockNoLateExpiry(rows: map<Id, Gift>, giftId: Id, caller: Id, now: Time)
    ensures DetailGate(rows, giftId, caller, now, now).0 != Denied(Expired)
    ensures DetailGate(rows, giftId, caller, now, now).1 == Sweep(rows, caller, now)
  {
    DetailDecision(rows, giftId, caller, now, now);
  }

  /** `decodeURIComponent` leaves a string without `%` unchanged. */
  ghost predicate UriDecodeLawful(uriDecode: string -> Option<string>) {
    forall s :: '%' !in s ==> uriDecode(s) == Some(s)
  }

  /** End to end: the link token made for a user (any IV) opens, for that user, exactly
      what the detail read shows. */
  lemma {:induction false} IssuedLinkOpensForOwner(
    c: Encryption.Crypto, env: Option<string>, uriDecode: string -> Option<string>,
    iv: seq<Encryption.Byte>, rows: map<Id, Gift>, giftId: Id, caller: Id, sweepNow: Time, now: Time)
    requires Encryption.Lawful(c) && UriDecodeLawful(uriDecode) && |iv| == Encryption.IV_LENGTH
    ensures Encryption.EncryptUserId(c, env, Some(caller), iv).Ok?
    ensures LinkGate(c, env, uriDecode, rows, giftId,
                     Encryption.EncryptUserId(c, env, Some(caller), iv).value, caller, sweepNow, now)
         == DetailGate(rows, giftId, caller, sweepNow, now)
  {
    Encryption.RoundTrip(c, env, caller, iv);
    var token := Encryption.EncryptUserId(c, env, Some(caller), iv).value;
    var key := Encryption.EncryptionKey(c, env);
    var ct := c.encrypt(key, iv, c.utf8Encode(caller));
    assert token == Encryption.HexEncode(iv) + ":" + Encryption.HexEncode(ct);
    HexHasNoPercent(iv);
    HexHasNoPercent(ct);
    assert '%' !in token;
  }

  lemma HexHasNoPercent(bytes: seq<Encryption.Byte>)
    ensures '%' !in Encryption.HexEncode(bytes)
  {
    var s := Encryption.HexEncode(bytes);
    forall k | 0 <= k < |s| ensures s[k] != '%' {
      assert Encryption.IsHexChar(s[k]);
    }
  }

  // ---------------------------------------------------------------------------------
  // The gift collection and the handlers that change it

  /** Every gift is stored under its own id. */
  ghost predicate WellKeyed(rows: map<Id, Gift>) {
    forall id :: id in rows ==> rows[id].id == id
  }

  class GiftTable {
    var rows: map<Id, Gift>

    ghost predicate Valid()
      reads this
    {
      WellKeyed(rows)
    }

    constructor(initial: map<Id, Gift>)
      requires WellKeyed(initial)
      ensures Valid() && rows == initial
    {
      rows := initial;
    }

    /** `autoExpireGiftsForUser(userId)` run at `now`. */
    method AutoExpireGiftsForUser(userId: Id, now: Time)
      requires Valid()
      modifies this
      ensures Valid() && rows == Sweep(old(rows), userId, now)
    {
      rows := map id | id in rows :: if SweepHits(rows[id], userId, now) then rows[id].(accessEnabled := false) else rows[id];
    }

    /** POST /request by `caller`. `saveAccepts` is the schema validation run by
        `gift.save()`: a gift it refuses is a 400 "Validation failed". On acceptance the new
        gift is stored under the fresh id and 201 returned; otherwise the table is
        untouched. */
    method SubmitRequest(caller: Id, body: RequestBody, parseDate: Json -> Option<Time>,
                         saveAccepts: Gift -> bool, freshId: Id, now: Time)
      returns (status: int, error: string)
      requires Valid() && freshId !in rows
      modifies this
      ensures Valid()
      ensures match ValidateRequest(body, parseDate)
        case Err(rej) => status == rej.status && error == rej.error && rows == old(rows)
        case Ok(d) =>
          if saveAccepts(NewGift(d, caller, freshId, now)) then
            status == 201 && rows == old(rows)[freshId := NewGift(d, caller, freshId, now)]
          else
            status == 400 && error == "Validation failed" && rows == old(rows)
    {
      match ValidateRequest(body, parseDate)
      case Err(rej) =>
        status, error := rej.status, rej.error;
      case Ok(d) =>
        var gift := NewGift(d, caller, freshId, now);
        if saveAccepts(gift) {
          rows := rows[freshId := gift];
          status, error := 201, "";
        } else {
          status, error := 400, "Validation failed";
        }
    }

    /** Steps 4 to 8 on the current table, writing the expired flag when step 8 fires. */
    method Check(giftId: Id, caller: Id, now: Time) returns (o: GateOutcome)
      requires Valid()
      modifies this
      ensures Valid() && (o, rows) == CheckGift(old(rows), giftId, caller, now)
    {
      if giftId !in rows {
        return Denied(NotFound);
      }
      var gift := rows[giftId];
      if gift.user != caller {
        return Denied(NotOwner);
      }
      if gift.permanentlyDeleted {
        return Denied(Deleted);
      }
      if !gift.accessEnabled {
        return Denied(Disabled);
      }
      if gift.expiresAt.Some? && now > gift.expiresAt.value {
        rows := rows[giftId := gift.(accessEnabled := false)];
        return Denied(Expired);
      }
      return Granted(gift);
    }

    /** GET /:id for `caller`. */
    method ViewDetail(giftId: Id, caller: Id, sweepNow: Time, now: Time) returns (o: GateOutcome)
      requires Valid()
      modifies this
      ensures Valid() && (o, rows) == DetailGate(old(rows), giftId, caller, sweepNow, now)
    {
      AutoExpireGiftsForUser(caller, sweepNow);
      o := Check(giftId, caller, now);
    }

    /** GET /:id/:encryptedUserId for `caller`. */
    method ViewByLink(c: Encryption.Crypto, env: Option<string>, uriDecode: string -> Option<string>,
                      giftId: Id, token: string, caller: Id, sweepNow: Time, now: Time)
      returns (o: GateOutcome)
      requires Valid()
      modifies this
      ensures Valid()
      ensures (o, rows) == LinkGate(c, env, uriDecode, old(rows), giftId, token, caller, sweepNow, now)
    {
      var intended := DecodeLink(c, env, uriDecode, token);
      if intended.Err? {
        return Denied(InvalidLink);
      }
      if caller != intended.value {
        return Denied(DifferentUser);
      }
      o := ViewDetail(giftId, caller, sweepNow, now);
    }
  }
}
