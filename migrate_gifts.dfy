/** The one-off gift schema migration (migrateGiftsSchema.js): every gift without a
    status is marked completed, given a completion time, an explicit access flag, an
    occasion synced from the older `memory` field, defaults for the request fields it
    lacks, and a valid plan.

    The script reads gifts through a schema-less model, so a gift is a map from field
    names to values; a missing field reads as `undefined`. The collection is the sequence
    of gifts in the order `find` returns them, and a gift is written by its position,
    which is the gift `updateOne({ _id })` finds since ids are unique. */
module GiftMigration {

  import opened JsValues
  import Sequences
  import UserModel

  type Fields = map<string, Json>

  datatype Doc = Doc(id: UserModel.Id, fields: Fields)

  /** Reading a field: `undefined` when the document does not have it. */
  function Get(f: Fields, key: string): Json {
    if key in f then f[key] else Undefined
  }

  /** The query: `status` absent, null or `''`. */
  predicate NeedsMigration(d: Doc) {
    var status := Get(d.fields, "status");
    status == Undefined || status == Null || status == Str("")
  }

  const VALID_PLANS: seq<Json> := [Str("momentum"), Str("everlasting")]

  /** The fields the update may set. */
  const TOUCHED: set<string> :=
    {"status", "completedAt", "accessEnabled", "occasion", "recipientName", "occasionDate", "songGenre", "plan"}

  /** `gift.assignedAt || gift.createdAt || new Date()`. */
  function FirstDate(f: Fields, now: DateValue): Json {
    Or(Get(f, "assignedAt"), Or(Get(f, "createdAt"), now))
  }

  /** The `update` object built for one gift. */
  function BuildUpdate(f: Fields, now: DateValue): (u: Fields)
    ensures u.Keys <= TOUCHED
  {
    var base := map[
      "status" := Str("completed"),
      "completedAt" := FirstDate(f, now),
      "accessEnabled" := Bool(Get(f, "accessEnabled") != Bool(false))];
    var withOccasion :=
      if !Truthy(Get(f, "occasion")) && Truthy(Get(f, "memory")) then base["occasion" := Get(f, "memory")] else base;
    var withName :=
      if !Truthy(Get(f, "recipientName")) then withOccasion["recipientName" := Str("Recipient")] else withOccasion;
    var withDate :=
      if !Truthy(Get(f, "occasionDate")) then withName["occasionDate" := FirstDate(f, now)] else withName;
    var withGenre :=
      if !Truthy(Get(f, "songGenre")) then withDate["songGenre" := Str("pop")] else withDate;
    if !Truthy(Get(f, "plan")) || Get(f, "plan") !in VALID_PLANS then withGenre["plan" := Str("momentum")]
    else withGenre
  }

  /** `updateOne({ _id }, { $set: update })`. */
  function Migrated(d: Doc, now: DateValue): Doc {
    Doc(d.id, d.fields + BuildUpdate(d.fields, now))
  }

  /** A migrated gift is completed, and completed at its assignment time, else its
      creation time, else the time of the run. */
  lemma CompletionFields(d: Doc, now: DateValue)
    ensures var before, after := d.fields, Migrated(d, now).fields;
      && Get(after, "status") == Str("completed")
      && (Truthy(Get(before, "assignedAt")) ==> Get(after, "completedAt") == Get(before, "assignedAt"))
      && (!Truthy(Get(before, "assignedAt")) && Truthy(Get(before, "createdAt")) ==>
            Get(after, "completedAt") == Get(before, "createdAt"))
      && (!Truthy(Get(before, "assignedAt")) && !Truthy(Get(before, "createdAt")) ==>
            Get(after, "completedAt") == now)
  {
    UpdateKeepsBase(d.fields, now);
  }

  /** The three fields every update sets keep the values the update starts from. */
  lemma UpdateKeepsBase(f: Fields, now: DateValue)
    ensures var u := BuildUpdate(f, now);
      && "status" in u && u["status"] == Str("completed")
      && "completedAt" in u && u["completedAt"] == FirstDate(f, now)
      && "accessEnabled" in u && u["accessEnabled"] == Bool(Get(f, "accessEnabled") != Bool(false))
  {
  }

  /** Access ends disabled only if it was explicitly disabled; otherwise it is enabled. */
  lemma AccessField(d: Doc, now: DateValue)
    ensures var before, after := d.fields, Migrated(d, now).fields;
      && (Get(after, "accessEnabled") == Bool(false) <==> Get(before, "accessEnabled") == Bool(false))
      && (Get(after, "accessEnabled") == Bool(true) <==> Get(before, "accessEnabled") != Bool(false))
  {
    UpdateKeepsBase(d.fields, now);
  }

  /** The occasion is copied from `memory` only when it is unset and `memory` is set. */
  lemma OccasionField(d: Doc, now: DateValue)
    ensures var before, after := d.fields, Migrated(d, now).fields;
      Get(after, "occasion") ==
        (if !Truthy(Get(before, "occasion")) && Truthy(Get(before, "memory")) then Get(before, "memory")
         else Get(before, "occasion"))
  {
  }

  /** The request fields get their defaults only when missing; set values stay. */
  lemma DefaultFields(d: Doc, now: DateValue)
    ensures var before, after := d.fields, Migrated(d, now).fields;
      && (Truthy(Get(before, "recipientName")) ==> Get(after, "recipientName") == Get(before, "recipientName"))
      && (!Truthy(Get(before, "recipientName")) ==> Get(after, "recipientName") == Str("Recipient"))
      && (Truthy(Get(before, "occasionDate")) ==> Get(after, "occasionDate") == Get(before, "occasionDate"))
      && (!Truthy(Get(before, "occasionDate")) ==> Get(after, "occasionDate") == FirstDate(before, now))
      && (Truthy(Get(before, "songGenre")) ==> Get(after, "songGenre") == Get(before, "songGenre"))
      && (!Truthy(Get(before, "songGenre")) ==> Get(after, "songGenre") == Str("pop"))
  {
  }

  /** The plan ends valid: kept if it already was, `momentum` otherwise. */
  lemma PlanField(d: Doc, now: DateValue)
    ensures var before, after := d.fields, Migrated(d, now).fields;
      && Get(after, "plan") in VALID_PLANS
      && (Get(before, "plan") in VALID_PLANS ==> Get(after, "plan") == Get(before, "plan"))
      && (Get(before, "plan") !in VALID_PLANS ==> Get(after, "plan") == Str("momentum"))
  {
  }

  /** Fields outside the update are left alone. */
  lemma OtherFieldsKept(d: Doc, now: DateValue, key: string)
    requires key !in TOUCHED
    ensures Get(Migrated(d, now).fields, key) == Get(d.fields, key)
  {
  }

  /** A migrated gift is no longer selected, so a second run after a fully successful one
      finds nothing and returns early. */
  lemma MigratedNotSelected(d: Doc, now: DateValue)
    ensures !NeedsMigration(Migrated(d, now))
  {
    CompletionFields(d, now);
  }

  /** The positions of the gifts the migration selects. */
  function Selected(docs: seq<Doc>): (sel: seq<nat>)
    ensures forall j :: 0 <= j < |sel| ==> sel[j] < |docs| && NeedsMigration(docs[sel[j]])
    ensures forall i :: 0 <= i < |docs| && NeedsMigration(docs[i]) ==> i in sel
    ensures forall j, k :: 0 <= j < k < |sel| ==> sel[j] < sel[k]
  {
    Sequences.Positions(docs, NeedsMigration)
  }

  /** How many of the first `n` writes succeed. */
  function Successes(writeOk: nat -> bool, n: nat): (c: nat)
    ensures c <= n
  {
    if n == 0 then 0 else Successes(writeOk, n - 1) + (if writeOk(n - 1) then 1 else 0)
  }

  class GiftCollection {
    var docs: seq<Doc>

    constructor(docs: seq<Doc>)
      ensures this.docs == docs
    {
      this.docs := docs;
    }

    /** `migrate()`, with `now` the Date `new Date()` gives; `writeOk(j)` says whether the `j`-th `updateOne` of the
        run succeeds (a failed write is counted as an error and changes nothing). Returns
        the number of gifts found, migrated and failed. */
    method Migrate(now: DateValue, writeOk: nat -> bool) returns (found: nat, updated: nat, errors: nat)
      modifies this
      ensures found == |Selected(old(docs))|
      ensures updated + errors == found
      ensures updated == Successes(writeOk, found)
      ensures found == 0 ==> docs == old(docs)
      ensures |docs| == |old(docs)|
      ensures forall i :: 0 <= i < |docs| && i !in Selected(old(docs)) ==> docs[i] == old(docs)[i]
      ensures forall j :: 0 <= j < found ==>
        var i := Selected(old(docs))[j];
        docs[i] == if writeOk(j) then Migrated(old(docs)[i], now) else old(docs)[i]
      ensures (forall j :: 0 <= j < found ==> writeOk(j)) ==> Selected(docs) == []
    {
      var sel := Selected(docs);
      found := |sel|;
      if found == 0 {
        return 0, 0, 0;
      }
      updated, errors := MigrateAll(sel, now, writeOk);
      if forall j :: 0 <= j < found ==> writeOk(j) {
        forall i | 0 <= i < |docs| ensures !NeedsMigration(docs[i]) {
          if i in sel {
            var j :| 0 <= j < |sel| && sel[j] == i;
            MigratedNotSelected(old(docs)[i], now);
          }
        }
        Sequences.NoPositions(docs, NeedsMigration);
      }
    }

    /** The loop over the selected positions, in order. */
    method MigrateAll(sel: seq<nat>, now: DateValue, writeOk: nat -> bool) returns (updated: nat, errors: nat)
      requires forall j :: 0 <= j < |sel| ==> sel[j] < |docs|
      requires forall j, k :: 0 <= j < k < |sel| ==> sel[j] < sel[k]
      modifies this
      ensures updated + errors == |sel|
      ensures updated == Successes(writeOk, |sel|)
      ensures |docs| == |old(docs)|
      ensures forall i :: 0 <= i < |docs| && i !in sel ==> docs[i] == old(docs)[i]
      ensures forall j :: 0 <= j < |sel| ==>
        docs[sel[j]] == if writeOk(j) then Migrated(old(docs)[sel[j]], now) else old(docs)[sel[j]]
    {
      updated, errors := 0, 0;
      for j := 0 to |sel|
        invariant updated + errors == j
        invariant updated == Successes(writeOk, j)
        invariant |docs| == |old(docs)|
        invariant forall i :: 0 <= i < |docs| && i !in sel[..j] ==> docs[i] == old(docs)[i]
        invariant forall j' :: 0 <= j' < j ==>
          docs[sel[j']] == if writeOk(j') then Migrated(old(docs)[sel[j']], now) else old(docs)[sel[j']]
      {
        var gift := docs[sel[j]];
        if writeOk(j) {
          docs := docs[sel[j] := Migrated(gift, now)];
          updated := updated + 1;
        } else {
          errors := errors + 1;
        }
        assert sel[..j + 1] == sel[..j] + [sel[j]];
      }
      assert sel[..|sel|] == sel;
    }
  }
}
