/** The asset-store helpers (utils/cloudinary.js): deleting one asset, a list of assets, or
    everything under a prefix, and the two gift-level helpers built on them, plus the pure
    folder-path helper.

    The store's SDK is not modelled: a `Store` holds whether it was configured at load time
    and an oracle `respond(k, call)` giving the answer to the `k`-th call made to it (a
    result, or an exception's message), and it records every call it receives in `log`.
    Each helper is a method tied to a pure function that returns its outcome and the calls
    it makes. A public id that is null, undefined or empty is written `""`. */
module AssetStore {

  import opened Wrappers
  import Strings

  datatype ResourceType = Image | Video | Raw

  /** A call made to the store's SDK. */
  datatype Call =
    | Destroy(publicId: string, kind: ResourceType)
    | DeleteResources(publicIds: seq<string>, kind: ResourceType)
    | DeleteResourcesByPrefix(prefix: string, kind: ResourceType)

  /** The store's answer to a call: its `result` field, or the message of what it threw. */
  datatype Reply = Answer(result: string) | Threw(message: string)

  /** The `error` of a failed outcome: a message, or the store's whole answer. */
  datatype Failure = Message(text: string) | StoreResult(result: string)

  /** `{ ok: true, message }`, `{ ok: true, result }` or `{ ok: false, error }`. */
  datatype Outcome = Skipped(message: string) | Succeeded(result: string) | Failed(error: Failure)

  predicate IsOk(o: Outcome) {
    !o.Failed?
  }

  const NOT_CONFIGURED := "Cloudinary not configured"
  const NO_PUBLIC_ID := "No public ID provided"
  const NO_PUBLIC_IDS := "No public IDs provided"
  const NO_PREFIX := "No prefix provided"
  const NO_FOLDER := "No folder path provided"

  // ---------------------------------------------------------------------------------
  // Single helpers, as pure functions of the configuration, the oracle and the index
  // of the next call; each returns the outcome and the calls made.

  /** The answer of `destroy`: deleted or already absent is success. */
  function DestroyOutcome(reply: Reply): Outcome {
    match reply
    case Answer(result) =>
      if result == "ok" || result == "not found" then Succeeded(result) else Failed(StoreResult(result))
    case Threw(message) => Failed(Message(message))
  }

  /** `deleteAsset(publicId, kind)`. */
  function AssetStep(configured: bool, respond: (nat, Call) -> Reply, k: nat, publicId: string,
                     kind: ResourceType): (Outcome, seq<Call>)
  {
    if !configured then (Failed(Message(NOT_CONFIGURED)), [])
    else if publicId == "" then (Skipped(NO_PUBLIC_ID), [])
    else (DestroyOutcome(respond(k, Destroy(publicId, kind))), [Destroy(publicId, kind)])
  }

  /** `deleteAssets(publicIds, kind)`: any answer of the bulk call is success. */
  function AssetsStep(configured: bool, respond: (nat, Call) -> Reply, k: nat, publicIds: seq<string>,
                      kind: ResourceType): (Outcome, seq<Call>)
  {
    if !configured then (Failed(Message(NOT_CONFIGURED)), [])
    else if |publicIds| == 0 then (Skipped(NO_PUBLIC_IDS), [])
    else
      var call := DeleteResources(publicIds, kind);
      match respond(k, call)
      case Answer(result) => (Succeeded(result), [call])
      case Threw(message) => (Failed(Message(message)), [call])
  }

  /** `deleteByPrefix(prefix, kind)`: an empty prefix is a failure, any answer of the
      call is success. */
  function PrefixStep(configured: bool, respond: (nat, Call) -> Reply, k: nat, prefix: string,
                      kind: ResourceType): (Outcome, seq<Call>)
  {
    if !configured then (Failed(Message(NOT_CONFIGURED)), [])
    else if prefix == "" then (Failed(Message(NO_PREFIX)), [])
    else
      var call := DeleteResourcesByPrefix(prefix, kind);
      match respond(k, call)
      case Answer(result) => (Succeeded(result), [call])
      case Threw(message) => (Failed(Message(message)), [call])
  }

  /** `deleteAsset` succeeds exactly when the store is configured and either there is no
      id (and no call is made) or the store answers `ok` or `not found`; an unconfigured
      store fails before the argument is looked at. */
  lemma AssetOkExactly(configured: bool, respond: (nat, Call) -> Reply, k: nat, publicId: string,
                       kind: ResourceType)
    ensures var (o, calls) := AssetStep(configured, respond, k, publicId, kind);
      && (IsOk(o) <==>
            configured &&
            (publicId == "" || respond(k, Destroy(publicId, kind)) in {Answer("ok"), Answer("not found")}))
      && (calls == [] <==> !configured || publicId == "")
      && (calls != [] ==> calls == [Destroy(publicId, kind)])
      && (!configured ==> o == Failed(Message(NOT_CONFIGURED)))
  {
  }

  /** Empty arguments: a bulk delete of nothing succeeds, a prefix delete of nothing fails;
      neither reaches the store. */
  lemma EmptyArguments(respond: (nat, Call) -> Reply, k: nat, kind: ResourceType)
    ensures AssetsStep(true, respond, k, [], kind) == (Skipped(NO_PUBLIC_IDS), [])
    ensures PrefixStep(true, respond, k, "", kind) == (Failed(Message(NO_PREFIX)), [])
    ensures AssetStep(true, respond, k, "", kind) == (Skipped(NO_PUBLIC_ID), [])
  {
  }

  // ---------------------------------------------------------------------------------
  // deleteGiftFolder

  datatype FolderOutcome =
    | FolderRefused(error: string)
    | FolderDone(images: Outcome, videos: Outcome, ok: bool)

  /** A prefix deletion counts against the folder unless it failed only because the store
      is not configured. */
  predicate FolderFailure(o: Outcome) {
    o.Failed? && o.error != Message(NOT_CONFIGURED)
  }

  /** `deleteGiftFolder(folderPath)`: the image prefix, then the video prefix (audio is
      stored as video). */
  function FolderStep(configured: bool, respond: (nat, Call) -> Reply, k: nat, folder: string)
    : (FolderOutcome, seq<Call>)
  {
    if !configured then (FolderRefused(NOT_CONFIGURED), [])
    else if folder == "" then (FolderRefused(NO_FOLDER), [])
    else
      var (images, c1) := PrefixStep(configured, respond, k, folder, Image);
      var (videos, c2) := PrefixStep(configured, respond, k + |c1|, folder, Video);
      (FolderDone(images, videos, !FolderFailure(images) && !FolderFailure(videos)), c1 + c2)
  }

  /** A prefix call that did not count against the folder: answered, or threw an error
      whose message happens to be the not-configured text. */
  predicate CountsAsDone(reply: Reply) {
    reply.Answer? || reply == Threw(NOT_CONFIGURED)
  }

  /** On a configured store a folder deletion makes exactly two prefix calls, images then
      videos, on the same path, and is ok exactly when neither failed (short of an SDK
      error carrying the not-configured text). An empty path or an unconfigured
      store makes no call. */
  lemma FolderExactly(configured: bool, respond: (nat, Call) -> Reply, k: nat, folder: string)
    ensures var (r, calls) := FolderStep(configured, respond, k, folder);
      && (!configured || folder == "" ==> r.FolderRefused? && calls == [])
      && (configured && folder != "" ==>
            && calls == [DeleteResourcesByPrefix(folder, Image), DeleteResourcesByPrefix(folder, Video)]
            && r.FolderDone?
            && (r.ok <==> CountsAsDone(respond(k, calls[0])) && CountsAsDone(respond(k + 1, calls[1]))))
  {
  }

  // ---------------------------------------------------------------------------------
  // deleteGiftAssets

  /** One entry of `results.photos`: the id and the outcome of deleting it. */
  datatype PhotoEntry = PhotoEntry(publicId: string, outcome: Outcome)

  datatype GiftAssetsOutcome =
    | AssetsRefused(error: string)
    | AssetsDone(photos: seq<PhotoEntry>, audio: Option<Outcome>, ok: bool)

  /** Every photo deletion in the list was ok. */
  predicate AllOk(entries: seq<PhotoEntry>) {
    forall j :: 0 <= j < |entries| ==> IsOk(entries[j].outcome)
  }

  lemma AllOkSnoc(entries: seq<PhotoEntry>, e: PhotoEntry)
    ensures AllOk(entries + [e]) == (AllOk(entries) && IsOk(e.outcome))
  {
    var all := entries + [e];
    assert all[|entries|] == e;
    assert forall j :: 0 <= j < |entries| ==> all[j] == entries[j];
  }

  /** The photo loop over `ids` with the store's call counter at `k`: the entries and the
      calls, built up one id at a time. */
  function PhotoRun(respond: (nat, Call) -> Reply, k: nat, ids: seq<string>): (run: (seq<PhotoEntry>, seq<Call>))
    ensures |run.0| == |ids|
    ensures forall j :: 0 <= j < |ids| ==> run.0[j].publicId == ids[j]
  {
    if |ids| == 0 then ([], [])
    else
      var (entries, calls) := PhotoRun(respond, k, ids[..|ids| - 1]);
      var id := ids[|ids| - 1];
      var (o, c) := AssetStep(true, respond, k + |calls|, id, Image);
      (entries + [PhotoEntry(id, o)], calls + c)
  }

  /** One more turn of the photo loop. */
  lemma PhotoRunStep(respond: (nat, Call) -> Reply, k: nat, ids: seq<string>, i: nat)
    requires i < |ids|
    ensures var before := PhotoRun(respond, k, ids[..i]);
      var step := AssetStep(true, respond, k + |before.1|, ids[i], Image);
      && PhotoRun(respond, k, ids[..i + 1]).0 == before.0 + [PhotoEntry(ids[i], step.0)]
      && PhotoRun(respond, k, ids[..i + 1]).1 == before.1 + step.1
  {
    assert ids[..i + 1][..i] == ids[..i];
  }

  /** The destroy calls for a list of ids, in order, skipping the empty ones. */
  function DestroyAll(ids: seq<string>, kind: ResourceType): (calls: seq<Call>)
    ensures |calls| <= |ids|
  {
    if |ids| == 0 then []
    else (if ids[0] == "" then [] else [Destroy(ids[0], kind)]) + DestroyAll(ids[1..], kind)
  }

  lemma {:induction false} DestroyAllSnoc(ids: seq<string>, id: string, kind: ResourceType)
    ensures DestroyAll(ids + [id], kind) == DestroyAll(ids, kind) + (if id == "" then [] else [Destroy(id, kind)])
  {
    if |ids| > 0 {
      assert (ids + [id])[1..] == ids[1..] + [id];
      DestroyAllSnoc(ids[1..], id, kind);
    } else {
      assert ids + [id] == [id];
    }
  }

  /** The photo loop deletes, in order, exactly the non-empty photo ids, each as an
      image. */
  lemma {:induction false} PhotoRunCalls(respond: (nat, Call) -> Reply, k: nat, ids: seq<string>)
    ensures PhotoRun(respond, k, ids).1 == DestroyAll(ids, Image)
  {
    if |ids| > 0 {
      var init := ids[..|ids| - 1];
      PhotoRunCalls(respond, k, init);
      DestroyAllSnoc(init, ids[|ids| - 1], Image);
      assert init + [ids[|ids| - 1]] == ids;
    }
  }

  /** `deleteGiftAssets(photoPublicIds, audioPublicId)` as a function. */
  function GiftAssetsStep(configured: bool, respond: (nat, Call) -> Reply, k: nat,
                          photoIds: seq<string>, audioId: string): (GiftAssetsOutcome, seq<Call>)
  {
    if !configured then (AssetsRefused(NOT_CONFIGURED), [])
    else
      var (entries, calls) := PhotoRun(respond, k, photoIds);
      var photosOk := AllOk(entries);
      if audioId == "" then (AssetsDone(entries, None, photosOk), calls)
      else
        var (a, c) := AssetStep(true, respond, k + |calls|, audioId, Video);
        (AssetsDone(entries, Some(a), photosOk && IsOk(a)), calls + c)
  }

  /** The gift-assets deletion on a configured store: one entry per photo id, in order;
      the non-empty photo ids destroyed as images, then the audio id as a video only when
      present; ok exactly when every attempted deletion was ok. */
  lemma {:induction false} GiftAssetsExactly(respond: (nat, Call) -> Reply, k: nat,
                                             photoIds: seq<string>, audioId: string)
    ensures var (r, calls) := GiftAssetsStep(true, respond, k, photoIds, audioId);
      && r.AssetsDone?
      && |r.photos| == |photoIds|
      && (forall j :: 0 <= j < |photoIds| ==> r.photos[j].publicId == photoIds[j])
      && calls == DestroyAll(photoIds, Image) + (if audioId == "" then [] else [Destroy(audioId, Video)])
      && (r.audio.Some? <==> audioId != "")
      && (r.ok <==> (forall j :: 0 <= j < |r.photos| ==> IsOk(r.photos[j].outcome)) &&
                    (r.audio.Some? ==> IsOk(r.audio.value)))
  {
    PhotoRunCalls(respond, k, photoIds);
  }

  // ---------------------------------------------------------------------------------
  // getFolderFromPublicId

  /** `getFolderFromPublicId(publicId)`: all `/`-segments but the last, for an id of at
      least three segments; `None` (null) otherwise. */
  function FolderFromPublicId(publicId: Option<string>): Option<string> {
    if publicId.None? || publicId.value == "" then None
    else
      var parts := Strings.Split(publicId.value, '/');
      if |parts| >= 3 then Some(Strings.Join(parts[..|parts| - 1], '/')) else None
  }

  /** There is a folder exactly when the id has at least two `/`. */
  lemma FolderExists(publicId: Option<string>)
    ensures FolderFromPublicId(publicId).Some? <==>
      publicId.Some? && Strings.Count(publicId.value, '/') >= 2
  {
    if publicId.Some? {
      Strings.SplitFacts(publicId.value, '/');
      if publicId.value == "" {
        Strings.CountZero(publicId.value, '/');
      }
    }
  }

  /** The folder, a `/` and the last segment give back the id, and the last segment holds
      no `/`. */
  lemma {:induction false} FolderThenName(publicId: string)
    requires FolderFromPublicId(Some(publicId)).Some?
    ensures var parts := Strings.Split(publicId, '/');
      var last := parts[|parts| - 1];
      && FolderFromPublicId(Some(publicId)).value + "/" + last == publicId
      && '/' !in last
  {
    var parts := Strings.Split(publicId, '/');
    Strings.SplitFacts(publicId, '/');
    var init := parts[..|parts| - 1];
    var last := parts[|parts| - 1];
    assert init + [last] == parts;
    Strings.JoinSnoc(init, '/', last);
  }

  // ---------------------------------------------------------------------------------
  // The store and its helpers

  class Store {
    /** `isConfigured`, fixed when the module is loaded. */
    const configured: bool
    /** The SDK's answer to the `k`-th call. */
    const respond: (nat, Call) -> Reply
    /** Every call the store has received, in order. */
    var log: seq<Call>

    constructor(configured: bool, respond: (nat, Call) -> Reply)
      ensures this.configured == configured && this.respond == respond && log == []
    {
      this.configured := configured;
      this.respond := respond;
      log := [];
    }

    /** One SDK call: answered by the oracle and recorded. */
    method Invoke(call: Call) returns (reply: Reply)
      modifies this
      ensures reply == respond(|old(log)|, call) && log == old(log) + [call]
    {
      reply := respond(|log|, call);
      log := log + [call];
    }

    method DeleteAsset(publicId: string, kind: ResourceType) returns (o: Outcome)
      modifies this
      ensures o == AssetStep(configured, respond, |old(log)|, publicId, kind).0
      ensures log == old(log) + AssetStep(configured, respond, |old(log)|, publicId, kind).1
    {
      if !configured {
        return Failed(Message(NOT_CONFIGURED));
      }
      if publicId == "" {
        return Skipped(NO_PUBLIC_ID);
      }
      var reply := Invoke(Destroy(publicId, kind));
      o := DestroyOutcome(reply);
    }

    method DeleteAssets(publicIds: seq<string>, kind: ResourceType) returns (o: Outcome)
      modifies this
      ensures var (spec, calls) := AssetsStep(configured, respond, |old(log)|, publicIds, kind);
        o == spec && log == old(log) + calls
    {
      if !configured {
        return Failed(Message(NOT_CONFIGURED));
      }
      if |publicIds| == 0 {
        return Skipped(NO_PUBLIC_IDS);
      }
      var reply := Invoke(DeleteResources(publicIds, kind));
      match reply
      case Answer(result) => o := Succeeded(result);
      case Threw(message) => o := Failed(Message(message));
    }

    method DeleteByPrefix(prefix: string, kind: ResourceType) returns (o: Outcome)
      modifies this
      ensures var (spec, calls) := PrefixStep(configured, respond, |old(log)|, prefix, kind);
        o == spec && log == old(log) + calls
    {
      if !configured {
        return Failed(Message(NOT_CONFIGURED));
      }
      if prefix == "" {
        return Failed(Message(NO_PREFIX));
      }
      var reply := Invoke(DeleteResourcesByPrefix(prefix, kind));
      match reply
      case Answer(result) => o := Succeeded(result);
      case Threw(message) => o := Failed(Message(message));
    }

    method DeleteGiftFolder(folder: string) returns (r: FolderOutcome)
      modifies this
      ensures var (spec, calls) := FolderStep(configured, respond, |old(log)|, folder);
        r == spec && log == old(log) + calls
    {
      if !configured {
        return FolderRefused(NOT_CONFIGURED);
      }
      if folder == "" {
        return FolderRefused(NO_FOLDER);
      }
      var ok := true;
      var images := DeleteByPrefix(folder, Image);
      var videos := DeleteByPrefix(folder, Video);
      if images.Failed? && images.error != Message(NOT_CONFIGURED) {
        ok := false;
      }
      if videos.Failed? && videos.error != Message(NOT_CONFIGURED) {
        ok := false;
      }
      r := FolderDone(images, videos, ok);
    }

    /** The photo loop of `deleteGiftAssets`, on a configured store. */
    method DeletePhotos(photoIds: seq<string>) returns (photos: seq<PhotoEntry>, ok: bool)
      requires configured
      modifies this
      ensures photos == PhotoRun(respond, |old(log)|, photoIds).0
      ensures log == old(log) + PhotoRun(respond, |old(log)|, photoIds).1
      ensures ok == AllOk(photos)
    {
      var k0 := |log|;
      ghost var calls: seq<Call> := [];
      photos, ok := [], true;
      assert photoIds[..0] == [];
      for i := 0 to |photoIds|
        invariant log == old(log) + calls
        invariant photos == PhotoRun(respond, k0, photoIds[..i]).0
        invariant calls == PhotoRun(respond, k0, photoIds[..i]).1
        invariant ok == AllOk(photos)
      {
        PhotoRunStep(respond, k0, photoIds, i);
        ghost var step := AssetStep(true, respond, |log|, photoIds[i], Image);
        var o := DeleteAsset(photoIds[i], Image);
        assert o == step.0 && log == old(log) + calls + step.1;
        assert photos + [PhotoEntry(photoIds[i], o)] == PhotoRun(respond, k0, photoIds[..i + 1]).0;
        calls := calls + step.1;
        AllOkSnoc(photos, PhotoEntry(photoIds[i], o));
        photos := photos + [PhotoEntry(photoIds[i], o)];
        if !IsOk(o) {
          ok := false;
        }
      }
      assert photoIds[..|photoIds|] == photoIds;
    }

    method DeleteGiftAssets(photoIds: seq<string>, audioId: string) returns (r: GiftAssetsOutcome)
      modifies this
      ensures var (spec, calls) := GiftAssetsStep(configured, respond, |old(log)|, photoIds, audioId);
        r == spec && log == old(log) + calls
    {
      if !configured {
        return AssetsRefused(NOT_CONFIGURED);
      }
      var photos, ok := DeletePhotos(photoIds);
      var audio: Option<Outcome> := None;
      if audioId != "" {
        var a := DeleteAsset(audioId, Video);
        audio := Some(a);
        if !IsOk(a) {
          ok := false;
        }
      }
      r := AssetsDone(photos, audio, ok);
    }
  }
}
