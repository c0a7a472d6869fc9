/**
 * The submission pipeline: the gate on the upload's name, the single-slot
 * output folder, and the decisions `generate_3d_model` takes on the
 * outcome of the remote call. The remote service, `secure_filename` and
 * the local file system are inputs: a `RemoteOutcome`, the sanitised name,
 * and a map from the paths that exist to their contents.
 */
module Pipeline {
  import opened Wrappers
  import opened FileNames
  import opened QuotaMessage

  /** File contents; the pipeline copies them and never looks inside. */
  type Bytes = seq<bv8>

  /** OUTPUT_FOLDER. */
  const OutputFolderName := "outputs"

  /** What `secure_filename` guarantees of its result: no path separator. */
  predicate SecureName(name: string)
  {
    '/' !in name
  }

  /**
   * The upload can be written as a file in a fresh temporary directory:
   * joined to the directory, "", "." and ".." name a directory, and
   * opening that for writing raises.
   */
  predicate Writable(name: string)
  {
    name != "" && name != "." && name != ".."
  }

  /** `os.path.join(OUTPUT_FOLDER, name)` for a name without a separator. */
  function OutputPath(name: string): string
  {
    OutputFolderName + "/" + name
  }

  /** How the remote call ends, as generate_3d_model sees it. */
  datatype RemoteOutcome =
    | ClientFailed(message: string)
    | PredictFailed(message: string)
    | Predicted(modelPath: Option<string>, videoPath: Option<string>)

  /** What the user is told when a run yields no artifacts. */
  datatype Report =
    | Remote(error: RemoteError)
    | ModelNotFound(path: Option<string>)
    | UploadNotSaved

  /** The triple `(model_path, image_path, video_path)` generate_3d_model returns. */
  datatype Artifacts = Artifacts(model: Option<string>, image: Option<string>, video: Option<string>)

  /** `(None, None, None)`. */
  const NoArtifacts := Artifacts(None, None, None)

  /** `path and os.path.exists(path)`, where `disk` holds the paths that exist. */
  predicate Usable(path: Option<string>, disk: map<string, Bytes>)
  {
    path.Some? && path.value != "" && path.value in disk
  }

  /** The run got a model back and copied it: the only way to a non-empty result. */
  predicate Succeeds(name: string, remote: RemoteOutcome, disk: map<string, Bytes>)
  {
    Writable(name) && remote.Predicted? && Usable(remote.modelPath, disk)
  }

  /** The output folder's files after one generate_3d_model call that found `before` there. */
  function FolderAfter(before: map<string, Bytes>, name: string, image: Bytes,
                       remote: RemoteOutcome, disk: map<string, Bytes>): map<string, Bytes>
  {
    if !Writable(name) then before
    else if !Succeeds(name, remote, disk) then map[]
    else
      var base := Base(name);
      var copied := map[ModelFileName(base) := disk[remote.modelPath.value],
                        ImageFileName(base, name) := image];
      if Usable(remote.videoPath, disk) then copied[VideoFileName(base) := disk[remote.videoPath.value]]
      else copied
  }

  /** The paths generate_3d_model returns. */
  function ArtifactsOf(name: string, remote: RemoteOutcome, disk: map<string, Bytes>): Artifacts
  {
    if !Succeeds(name, remote, disk) then NoArtifacts
    else
      var base := Base(name);
      Artifacts(Some(OutputPath(ModelFileName(base))),
                Some(OutputPath(ImageFileName(base, name))),
                if Usable(remote.videoPath, disk) then Some(OutputPath(VideoFileName(base))) else None)
  }

  /** The error generate_3d_model shows, if any. */
  function ReportOf(name: string, remote: RemoteOutcome, disk: map<string, Bytes>): Option<Report>
  {
    if !Writable(name) then Some(UploadNotSaved)
    else match remote
      case ClientFailed(msg) => Some(Remote(RequestFailed(msg)))
      case PredictFailed(msg) => Some(Remote(ClassifyRemoteError(msg)))
      case Predicted(model, _) => if Usable(model, disk) then None else Some(ModelNotFound(model))
  }

  /** How many times generate_3d_model calls `client.predict`. */
  function PredictCalls(name: string, remote: RemoteOutcome): nat
  {
    if !Writable(name) || remote.ClientFailed? then 0 else 1
  }

  /**
   * The hosted space, as far as the page can tell: the number of
   * predictions asked of it, through whichever client each run builds.
   */
  class Space {
    var predictions: nat

    /** A space nobody has asked yet. */
    constructor ()
      ensures predictions == 0
    {
      predictions := 0;
    }

    /**
     * `client.predict`: one more request. Its answer is `answer`, which the
     * network and the remote model decide.
     */
    method Predict(answer: RemoteOutcome) returns (r: RemoteOutcome)
      modifies this
      ensures predictions == old(predictions) + 1 && r == answer
    {
      predictions := predictions + 1;
      r := answer;
    }
  }

  /** The OUTPUT_FOLDER directory: whether it exists, and the files in it. */
  class OutputFolder {
    var present: bool
    var files: map<string, Bytes>

    /** A directory that does not exist holds no files. */
    ghost predicate Valid()
      reads this
    {
      present || files == map[]
    }

    /** `os.makedirs(OUTPUT_FOLDER, exist_ok=True)` at start-up keeps whatever is already there. */
    constructor (existing: map<string, Bytes>)
      ensures Valid() && present && files == existing
    {
      present, files := true, existing;
    }

    /** recreate_output_directory: remove the folder with everything in it, then create it empty. */
    method Recreate()
      requires Valid()
      modifies this
      ensures Valid() && present && files == map[]
    {
      if present {
        present, files := false, map[];
      }
      present := true;
    }

    /** `shutil.copyfile` into the folder: `name` now holds `data`, and every other file is as it was. */
    method CopyIn(name: string, data: Bytes)
      requires Valid() && present
      modifies this
      ensures Valid() && present && files == old(files)[name := data]
    {
      files := files[name := data];
    }
  }

  /**
   * generate_3d_model: save the upload, empty the output folder, call the
   * remote service once, and copy the model, the upload and the video (if
   * there is one) into the folder under names derived from the upload's.
   */
  method Generate3DModel(folder: OutputFolder, space: Space, name: string, image: Bytes,
                         remote: RemoteOutcome, disk: map<string, Bytes>)
    returns (result: Artifacts, report: Option<Report>)
    requires folder.Valid() && SecureName(name)
    modifies folder, space
    ensures folder.Valid()
    ensures folder.present == (old(folder.present) || Writable(name))
    ensures folder.files == FolderAfter(old(folder.files), name, image, remote, disk)
    ensures result == ArtifactsOf(name, remote, disk)
    ensures report == ReportOf(name, remote, disk)
    ensures space.predictions == old(space.predictions) + PredictCalls(name, remote)
  {
    if !Writable(name) {
      return NoArtifacts, Some(UploadNotSaved);
    }
    var base := Base(name);
    folder.Recreate();
    if remote.ClientFailed? {
      return NoArtifacts, Some(Remote(RequestFailed(remote.message)));
    }
    var answer := space.Predict(remote);
    match answer
    case PredictFailed(msg) =>
      return NoArtifacts, Some(Remote(ClassifyRemoteError(msg)));
    case Predicted(modelPath, videoPath) =>
      if !Usable(modelPath, disk) {
        return NoArtifacts, Some(ModelNotFound(modelPath));
      }
      var modelName := ModelFileName(base);
      folder.CopyIn(modelName, disk[modelPath.value]);
      var imageName := ImageFileName(base, name);
      folder.CopyIn(imageName, image);
      var video: Option<string> := None;
      if Usable(videoPath, disk) {
        var videoName := VideoFileName(base);
        folder.CopyIn(videoName, disk[videoPath.value]);
        video := Some(OutputPath(videoName));
      }
      return Artifacts(Some(OutputPath(modelName)), Some(OutputPath(imageName)), video), None;
  }

  /**
   * The submission: only an upload whose name allowed_file accepts reaches
   * generate_3d_model; any other upload leaves the folder alone and makes
   * no remote call. After a run that returns a model, the upload's name is
   * checked once more against the allowed extensions, with the extension
   * as `os.path.splitext` returns it.
   */
  method Submit(folder: OutputFolder, space: Space, uploadName: string, name: string, image: Bytes,
                remote: RemoteOutcome, disk: map<string, Bytes>)
    returns (result: Artifacts, report: Option<Report>, formatWarning: bool)
    requires folder.Valid() && SecureName(name)
    modifies folder, space
    ensures folder.Valid()
    ensures formatWarning <==> AllowedFile(uploadName) && Succeeds(name, remote, disk)
    ensures AllowedFile(uploadName) ==>
      && folder.present == (old(folder.present) || Writable(name))
      && folder.files == FolderAfter(old(folder.files), name, image, remote, disk)
      && result == ArtifactsOf(name, remote, disk)
      && report == ReportOf(name, remote, disk)
      && space.predictions == old(space.predictions) + PredictCalls(name, remote)
    ensures !AllowedFile(uploadName) ==>
      && folder.present == old(folder.present) && folder.files == old(folder.files)
      && result == NoArtifacts && report == None && space.predictions == old(space.predictions)
  {
    if AllowedFile(uploadName) {
      result, report := Generate3DModel(folder, space, name, image, remote, disk);
      FormatWarningAlwaysFires(uploadName);
      formatWarning := result.model.Some? && FormatWarningAsWritten(uploadName);
    } else {
      result, report, formatWarning := NoArtifacts, None, false;
    }
  }

  /**
   * A run that gets no usable model back, whatever the reason, returns
   * `(None, None, None)` with an error and leaves the freshly emptied
   * folder empty.
   */
  lemma FailedRunLeavesFolderEmpty(before: map<string, Bytes>, name: string, image: Bytes,
                                   remote: RemoteOutcome, disk: map<string, Bytes>)
    requires Writable(name) && !Succeeds(name, remote, disk)
    ensures FolderAfter(before, name, image, remote, disk) == map[]
    ensures ArtifactsOf(name, remote, disk) == NoArtifacts
    ensures ReportOf(name, remote, disk).Some?
  {
  }

  /** Three different names: two writes leave two files, a third write a third. */
  lemma DistinctWrites(m: string, i: string, v: string, x: Bytes, y: Bytes, z: Bytes)
    requires m != i && m != v && i != v
    ensures map[m := x, i := y].Keys == {m, i} && |map[m := x, i := y]| == 2
    ensures v !in map[m := x, i := y]
    ensures map[m := x, i := y][v := z].Keys == {m, i, v} && |map[m := x, i := y][v := z]| == 3
  {
    assert |{m, i}| == 2;
    assert |{m, i, v}| == 3;
  }

  /**
   * A successful run leaves exactly its model and image copy in the folder,
   * plus its video when the returned video path exists: two or three files.
   */
  lemma SuccessfulRunArtifacts(before: map<string, Bytes>, name: string, image: Bytes,
                               remote: RemoteOutcome, disk: map<string, Bytes>)
    requires Succeeds(name, remote, disk)
    ensures var base := Base(name);
      FolderAfter(before, name, image, remote, disk).Keys ==
        {ModelFileName(base), ImageFileName(base, name)} +
        (if Usable(remote.videoPath, disk) then {VideoFileName(base)} else {})
    ensures |FolderAfter(before, name, image, remote, disk)| ==
      if Usable(remote.videoPath, disk) then 3 else 2
    ensures var files := FolderAfter(before, name, image, remote, disk);
      files[ModelFileName(Base(name))] == disk[remote.modelPath.value] &&
      files[ImageFileName(Base(name), name)] == image
    ensures ReportOf(name, remote, disk) == None
  {
    var base := Base(name);
    var m, i, v := ModelFileName(base), ImageFileName(base, name), VideoFileName(base);
    var x := disk[remote.modelPath.value];
    var z := if Usable(remote.videoPath, disk) then disk[remote.videoPath.value] else image;
    assert FolderAfter(before, name, image, remote, disk) ==
      if Usable(remote.videoPath, disk) then map[m := x, i := image][v := z] else map[m := x, i := image];
    ArtifactNamesDistinct(base, name);
    DistinctWrites(m, i, v, x, image, z);
  }

  /**
   * On a successful run the third component is a path exactly when the
   * returned video path is non-empty and exists, and so is the video file
   * in the folder.
   */
  lemma VideoIffUsable(before: map<string, Bytes>, name: string, image: Bytes,
                       remote: RemoteOutcome, disk: map<string, Bytes>)
    requires Succeeds(name, remote, disk)
    ensures ArtifactsOf(name, remote, disk).video.Some? <==> Usable(remote.videoPath, disk)
    ensures VideoFileName(Base(name)) in FolderAfter(before, name, image, remote, disk)
      <==> Usable(remote.videoPath, disk)
  {
    var base := Base(name);
    ArtifactNamesDistinct(base, name);
    DistinctWrites(ModelFileName(base), ImageFileName(base, name), VideoFileName(base),
                   disk[remote.modelPath.value], image, image);
  }


  /** Each path the run returns names a file the run left in the output folder. */
  lemma ReturnedPathsAreInFolder(before: map<string, Bytes>, name: string, image: Bytes,
                                 remote: RemoteOutcome, disk: map<string, Bytes>)
    requires Writable(name)
    ensures var files, a := FolderAfter(before, name, image, remote, disk), ArtifactsOf(name, remote, disk);
      && (a.model.Some? ==> exists k :: k in files && a.model.value == OutputPath(k))
      && (a.image.Some? ==> exists k :: k in files && a.image.value == OutputPath(k))
      && (a.video.Some? ==> exists k :: k in files && a.video.value == OutputPath(k))
  {
    if Succeeds(name, remote, disk) {
      var base := Base(name);
      var files := FolderAfter(before, name, image, remote, disk);
      SuccessfulRunArtifacts(before, name, image, remote, disk);
      assert ModelFileName(base) in files && ImageFileName(base, name) in files;
      if Usable(remote.videoPath, disk) {
        assert VideoFileName(base) in files;
      }
    }
  }

  /**
   * The folder is single-slot: after a run every file in it carries the
   * run's own base name, whatever the folder held before.
   */
  lemma FolderHoldsOnlyThisRun(before: map<string, Bytes>, name: string, image: Bytes,
                               remote: RemoteOutcome, disk: map<string, Bytes>)
    requires Writable(name)
    ensures forall k :: k in FolderAfter(before, name, image, remote, disk) ==> Base(name) <= k
  {
    if Succeeds(name, remote, disk) {
      var base := Base(name);
      var files := FolderAfter(before, name, image, remote, disk);
      SuccessfulRunArtifacts(before, name, image, remote, disk);
      ArtifactNamesStartWithBase(base, name);
      forall k | k in files
        ensures base <= k
      {
        assert k == ModelFileName(base) || k == ImageFileName(base, name) || k == VideoFileName(base);
      }
    }
  }

  /** A second run leaves what it would have left in an empty folder: nothing of the first run survives. */
  lemma SecondRunReplacesFirst(before: map<string, Bytes>,
                               name1: string, image1: Bytes, remote1: RemoteOutcome,
                               name2: string, image2: Bytes, remote2: RemoteOutcome,
                               disk: map<string, Bytes>)
    requires Writable(name2)
    ensures FolderAfter(FolderAfter(before, name1, image1, remote1, disk), name2, image2, remote2, disk)
      == FolderAfter(map[], name2, image2, remote2, disk)
  {
  }

  /**
   * For an upload `head.ext` the model is `head_3d_model.glb` whatever the
   * extension, and the image copy keeps the extension as written.
   */
  lemma SuccessfulRunNames(name: string, head: string, ext: string,
                           remote: RemoteOutcome, disk: map<string, Bytes>)
    requires name == head + "." + ext && Succeeds(name, remote, disk)
    requires '/' !in head && '/' !in ext && '.' !in ext
    requires exists k :: 0 <= k < |head| && head[k] != '.'
    ensures ArtifactsOf(name, remote, disk).model == Some(OutputPath(head + "_3d_model.glb"))
    ensures ArtifactsOf(name, remote, disk).image == Some(OutputPath(head + "_original." + ext))
    ensures ArtifactsOf(name, remote, disk).video.Some? ==>
      ArtifactsOf(name, remote, disk).video == Some(OutputPath(head + "_video.mp4"))
  {
    ArtifactNamesOfDottedName(head, ext);
  }

  /**
   * A run asks the space for a prediction at most once, and exactly once
   * when the upload was saved and the client was built: there is no retry.
   */
  lemma AtMostOnePrediction(name: string, remote: RemoteOutcome)
    ensures PredictCalls(name, remote) <= 1
    ensures PredictCalls(name, remote) == 1 <==> Writable(name) && !remote.ClientFailed?
  {
  }

  /**
   * A failed `client.predict` is reported (as a quota error when the
   * message says so) and not retried: one call, no artifacts, an empty folder.
   */
  lemma PredictFailureIsFinal(before: map<string, Bytes>, name: string, image: Bytes,
                              msg: string, disk: map<string, Bytes>)
    requires Writable(name)
    ensures PredictCalls(name, PredictFailed(msg)) == 1
    ensures ReportOf(name, PredictFailed(msg), disk) == Some(Remote(ClassifyRemoteError(msg)))
    ensures ArtifactsOf(name, PredictFailed(msg), disk) == NoArtifacts
    ensures FolderAfter(before, name, image, PredictFailed(msg), disk) == map[]
  {
  }
}
