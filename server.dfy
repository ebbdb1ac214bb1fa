/**
 * The server's shared state and the handlers that use it: the upload
 * handler, the collage step, one round of the scheduler loop and the
 * connect handler. Socket broadcasts are returned as `Event` values instead
 * of being sent.
 */
module Server {
  import opened Options
  import opened Text
  import opened Upload
  import opened Images
  import opened Geometry
  import opened Countdown

  /** `UPLOAD_FOLDER`. */
  const UploadFolder: string := "uploads"

  /** The three rejections of `upload_file`, each answered with status 400. */
  datatype UploadError = NoFilePart | NoSelectedFile | FileTypeNotAllowed

  /** The JSON answer of `upload_file`: `Uploaded` is sent with status 200, `Rejected` with 400. */
  datatype UploadResponse = Uploaded(filename: string) | Rejected(error: UploadError)

  /** The payloads the server pushes to clients. */
  datatype Event =
    | NewUpload(filename: string, uploadedImages: seq<string>)
    | NewCollage(filename: string, uploadedImages: seq<string>)
    | InitialState(uploadedImages: seq<string>, recentCollage: Option<string>, remainingTime: int)

  /** A composed collage: the canvas size and the images pasted on the white background. */
  datatype Collage = Collage(width: nat, height: nat, placements: seq<Placement>)

  /** The process-wide state: `uploaded_images`, `last_collage_time` and `recent_collage`. */
  class CollageServer {
    const store: ImageStore
    var lastCollageTime: Instant
    var recentCollage: Option<string>

    /** Module start-up: no images, the clock read once, no collage yet. */
    constructor (startTime: Instant)
      ensures fresh(store) && store.images == []
      ensures lastCollageTime == startTime && recentCollage == None
    {
      store := new ImageStore();
      lastCollageTime := startTime;
      recentCollage := None;
    }

    /**
     * `upload_file`. `hasFilePart` says whether the request carries a `file`
     * part, `clientName` is the name the client gave, `storedName` the
     * generated unique name the bytes are saved under, and `now` the moment
     * of the upload.
     */
    method UploadFile(hasFilePart: bool, clientName: string, storedName: string, now: Instant)
      returns (response: UploadResponse, event: Option<Event>)
      modifies store
      ensures response.Uploaded? <==> hasFilePart && clientName != "" && AllowedFile(clientName)
      ensures !hasFilePart ==> response == Rejected(NoFilePart)
      ensures hasFilePart && clientName == "" ==> response == Rejected(NoSelectedFile)
      ensures hasFilePart && clientName != "" && !AllowedFile(clientName) ==>
        response == Rejected(FileTypeNotAllowed)
      ensures response.Uploaded? ==>
        && response.filename == storedName
        && store.images == old(store.images) + [Record(JoinPath(UploadFolder, storedName), now)]
        && event == Some(NewUpload(storedName, TrackedNames(store.images)))
      ensures response.Uploaded? && '/' !in storedName ==>
        event.value.uploadedImages[|store.images| - 1] == storedName
      ensures response.Rejected? ==> store.images == old(store.images) && event == None
    {
      if !hasFilePart {
        return Rejected(NoFilePart), None;
      }
      if clientName == "" {
        return Rejected(NoSelectedFile), None;
      }
      if AllowedFile(clientName) {
        var path := JoinPath(UploadFolder, storedName);
        store.Append(Record(path, now));
        if '/' !in storedName {
          BasenameOfJoin(UploadFolder, storedName);
        }
        return Uploaded(storedName), Some(NewUpload(storedName, TrackedNames(store.images)));
      }
      return Rejected(FileTypeNotAllowed), None;
    }

    /**
     * `create_dynamic_collage` at time `now`, saved as `collageName`: the
     * images of the window are pasted in arrival order, the two globals are
     * updated, and the broadcast lists every tracked image unless the window
     * was empty, in which case it lists none.
     */
    method CreateDynamicCollage(now: Instant, collageName: string) returns (collage: Collage, event: Event)
      modifies this
      ensures store.images == old(store.images)
      ensures lastCollageTime == now && recentCollage == Some(collageName)
      ensures collage.width == CanvasWidth && collage.height == CanvasHeight
      ensures var window := Recent(store.images, now);
        && |collage.placements| == |window|
        && (forall i :: 0 <= i < |window| ==>
              collage.placements[i] == Placement(window[i].path, Layout(CanvasWidth, CanvasHeight, |window|)[i]))
        && event == NewCollage(collageName, if window == [] then [] else TrackedNames(store.images))
    {
      var recentImages := store.Window(now);
      var placements := Compose(CanvasWidth, CanvasHeight, recentImages);
      collage := Collage(CanvasWidth, CanvasHeight, placements);
      lastCollageTime := now;
      recentCollage := Some(collageName);
      if recentImages == [] {
        event := NewCollage(collageName, []);
      } else {
        event := NewCollage(collageName, TrackedNames(store.images));
      }
    }

    /**
     * One round of `collage_scheduler` after its sleep: a collage at
     * `collageTime`, then the store pruned with the clock read again at
     * `pruneTime`.
     */
    method SchedulerRound(collageTime: Instant, collageName: string, pruneTime: Instant)
      returns (collage: Collage, event: Event)
      modifies this, store
      ensures lastCollageTime == collageTime && recentCollage == Some(collageName)
      ensures collage.width == CanvasWidth && collage.height == CanvasHeight
      ensures var window := Recent(old(store.images), collageTime);
        && |collage.placements| == |window|
        && (forall i :: 0 <= i < |window| ==>
              collage.placements[i] == Placement(window[i].path, Layout(CanvasWidth, CanvasHeight, |window|)[i]))
        && event == NewCollage(collageName, if window == [] then [] else TrackedNames(old(store.images)))
      ensures store.images == Recent(old(store.images), pruneTime)
    {
      collage, event := CreateDynamicCollage(collageTime, collageName);
      store.Prune(pruneTime);
    }

    /** `handle_connect`: the tracked images, the latest collage and the countdown at `now`. */
    method HandleConnect(now: Instant) returns (event: Event)
      ensures event.InitialState?
      ensures event.uploadedImages == TrackedNames(store.images)
      ensures event.recentCollage == recentCollage
      ensures event.remainingTime == RemainingTime(now, lastCollageTime)
      ensures lastCollageTime <= now ==> 0 <= event.remainingTime <= IntervalSeconds
    {
      if lastCollageTime <= now {
        RemainingTimeBounds(now, lastCollageTime);
      }
      event := InitialState(TrackedNames(store.images), recentCollage, RemainingTime(now, lastCollageTime));
    }
  }
}
