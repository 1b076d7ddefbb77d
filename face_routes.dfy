/** The face routes of routes/faceAttendance.js: multer's acceptance of an upload, and each
    handler as a function from its inputs (the upload and what the face-recognition call
    returned) to the one response it sends. */
module FaceAttendanceRoutes {
  import opened Wrappers
  import opened Strings
  import FR = FaceRecognition

  /** multer's `limits.fileSize`: 5 MiB */
  const MaxUploadBytes: nat := 5 * 1024 * 1024
  const OnlyImageFiles := "Only image files are allowed"
  /** multer's message for an upload over `limits.fileSize` */
  const FileTooLarge := "File too large"
  const NoImageProvided := "No image provided"
  const VerificationFailed := "Face verification failed"
  const MarkedFor := "Attendance marked for "

  /** `new Date()`, read by the handler when it answers */
  type Timestamp = nat

  /** The file part sent in the `image` field of a multipart body */
  datatype FilePart = FilePart(mimetype: string, bytes: seq<bv8>)

  /** What `upload.single('image')` makes of a request: no file (`req.file` undefined), a file in
      memory (`req.file.buffer`), or an error handed to `next`, so that the handler never runs */
  datatype Upload = NoFile | Accepted(buffer: seq<bv8>) | Rejected(message: string)

  /** A call into faceRecognition.js either returns or throws */
  datatype Call<T> = Returned(value: T) | Threw(message: string)

  /** The JSON bodies the handlers send */
  datatype Body =
    | Failure(error: string)
    | Marked(message: string, name: Option<string>, confidence: Option<FR.Confidence>, timestamp: Timestamp)
    | VerdictBody(verdict: FR.Verdict)
    | ReloadBody(result: FR.ReloadResult)
    | FacesBody(faces: seq<string>, count: nat)

  /** A JSON response with its status, or an error passed to Express's error handler */
  datatype Response = Json(status: nat, body: Body) | ToErrorHandler(message: string)

  /** The multer configuration: the file filter admits `image/...` mimetypes, then the size limit
      applies to what is streamed. */
  function AcceptUpload(part: Option<FilePart>): (u: Upload)
    ensures part.None? <==> u.NoFile?
    ensures u.Accepted? <==>
      part.Some? && StartsWith(part.value.mimetype, "image/") && |part.value.bytes| <= MaxUploadBytes
    ensures u.Accepted? ==> u.buffer == part.value.bytes
    ensures u.Rejected? ==>
      u.message == if StartsWith(part.value.mimetype, "image/") then FileTooLarge else OnlyImageFiles
  {
    match part
    case None => NoFile
    case Some(p) =>
      if !StartsWith(p.mimetype, "image/") then Rejected(OnlyImageFiles)
      else if |p.bytes| > MaxUploadBytes then Rejected(FileTooLarge)
      else Accepted(p.bytes)
  }

  /** A template literal's rendering of a possibly undefined string */
  function TemplateText(s: Option<string>): string {
    s.GetOr("undefined")
  }

  /** `result.error || 'Face not recognized'`: an absent or empty error falls back */
  function ErrorOrDefault(error: Option<string>): (text: string)
    ensures text != ""
    ensures error.Some? && error.value != "" ==> text == error.value
    ensures !(error.Some? && error.value != "") ==> text == FR.FaceNotRecognized
  {
    if error.Some? && error.value != "" then error.value else FR.FaceNotRecognized
  }

  /** POST /mark-attendance-with-face */
  function MarkAttendanceWithFace(upload: Upload, verify: seq<bv8> -> Call<FR.Verdict>, now: Timestamp): (r: Response)
    ensures upload.NoFile? ==> r == Json(400, Failure(NoImageProvided))
    ensures upload.Rejected? ==> r == ToErrorHandler(upload.message)
    ensures upload.Accepted? && verify(upload.buffer).Threw? ==> r == Json(500, Failure(VerificationFailed))
    ensures upload.Accepted? && verify(upload.buffer).Returned? ==>
      var v := verify(upload.buffer).value;
      (r.Json? && r.status == 200 <==> v.success && v.recognized == Some(true)) &&
      (v.success && v.recognized == Some(true) ==>
         r.body == Marked(MarkedFor + TemplateText(v.name), v.name, v.confidence, now)) &&
      (!(v.success && v.recognized == Some(true)) ==> r == Json(401, Failure(ErrorOrDefault(v.error))))
  {
    match upload
    case NoFile => Json(400, Failure(NoImageProvided))
    case Rejected(message) => ToErrorHandler(message)
    case Accepted(buffer) =>
      match verify(buffer)
      case Threw(_) => Json(500, Failure(VerificationFailed))
      case Returned(v) =>
        if v.success && v.recognized == Some(true) then
          Json(200, Marked(MarkedFor + TemplateText(v.name), v.name, v.confidence, now))
        else
          Json(401, Failure(ErrorOrDefault(v.error)))
  }

  /** POST /verify-face: the verifier's result is sent unchanged, with status 200 whatever it says */
  function VerifyFaceRoute(upload: Upload, verify: seq<bv8> -> Call<FR.Verdict>): (r: Response)
    ensures upload.NoFile? ==> r == Json(400, Failure(NoImageProvided))
    ensures upload.Rejected? ==> r == ToErrorHandler(upload.message)
    ensures upload.Accepted? ==>
      r == match verify(upload.buffer)
           case Returned(v) => Json(200, VerdictBody(v))
           case Threw(_) => Json(500, Failure(VerificationFailed))
  {
    match upload
    case NoFile => Json(400, Failure(NoImageProvided))
    case Rejected(message) => ToErrorHandler(message)
    case Accepted(buffer) =>
      match verify(buffer)
      case Threw(_) => Json(500, Failure(VerificationFailed))
      case Returned(v) => Json(200, VerdictBody(v))
  }

  /** POST /reload-faces */
  function ReloadFaces(result: Call<FR.ReloadResult>): (r: Response)
    ensures result.Returned? ==> r == Json(200, ReloadBody(result.value))
    ensures result.Threw? ==> r == Json(500, Failure(result.message))
  {
    match result
    case Returned(v) => Json(200, ReloadBody(v))
    case Threw(message) => Json(500, Failure(message))
  }

  /** GET /loaded-faces */
  function LoadedFaces(faces: Call<seq<string>>): (r: Response)
    ensures faces.Returned? ==> r.Json? && r.status == 200 && r.body.FacesBody? &&
                                r.body.faces == faces.value && r.body.count == |r.body.faces|
    ensures faces.Threw? ==> r == Json(500, Failure(faces.message))
  {
    match faces
    case Returned(names) => Json(200, FacesBody(names, |names|))
    case Threw(message) => Json(500, Failure(message))
  }

  /** Without a file neither verifying route asks the verifier anything. */
  lemma NoFileNeverVerifies(verify1: seq<bv8> -> Call<FR.Verdict>, verify2: seq<bv8> -> Call<FR.Verdict>, now: Timestamp)
    ensures MarkAttendanceWithFace(NoFile, verify1, now) == MarkAttendanceWithFace(NoFile, verify2, now)
    ensures VerifyFaceRoute(NoFile, verify1) == VerifyFaceRoute(NoFile, verify2)
  {
  }

  /** The status /mark-attendance-with-face gives each outcome of verifyFace: 200 with the matched
      name exactly when it was recognised, otherwise 401 with verifyFace's error. */
  lemma MarkStatusByOutcome(buffer: seq<bv8>, out: FR.Outcome, now: Timestamp)
    ensures var r := MarkAttendanceWithFace(Accepted(buffer), _ => Returned(FR.ToVerdict(out)), now);
      r.Json? &&
      (r.status == 200 <==> out.Recognized?) &&
      (out.Recognized? ==> r.body == Marked(MarkedFor + out.name, Some(out.name), Some(FR.RoundedPercent(out.distance)), now)) &&
      (out.NotRecognized? ==> r == Json(401, Failure(FR.FaceNotRecognized))) &&
      (out.NoReferenceData? ==> r == Json(401, Failure(FR.NoReferenceFaces))) &&
      (out.NoFaceFound? ==> r == Json(401, Failure(FR.NoFaceDetected))) &&
      (out.Failed? ==> r == Json(401, Failure(ErrorOrDefault(Some(out.message)))))
  {
  }

  /** The names faceRecognition.js reports are served with a matching count. */
  lemma LoadedFacesCount(fr: FR.FaceRecognizer)
    ensures var r := LoadedFaces(Returned(fr.GetLoadedFaces()));
      r.body.FacesBody? && r.body.count == |fr.gallery|
  {
  }
}
