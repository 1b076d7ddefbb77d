/** The face-identity bookkeeping of faceRecognition.js: which files of the Images directory are
    reference images, how a label is derived from a file name, how the gallery of labelled
    descriptors is built, the load-once model flag, and the classification of one verification.

    canvas.loadImage, face-api.js's detectSingleFace(...).withFaceLandmarks().withFaceDescriptor()
    and FaceMatcher.findBestMatch are foreign calls: they are the fields of an `Oracles` value,
    and the images, descriptors and distances they exchange are abstract types. */
module FaceRecognition {
  import opened Wrappers
  import opened Strings

  /** A decoded canvas image */
  type Image(==, !new)
  /** The 128-number face descriptor of one detected face */
  type Descriptor(==, !new)
  /** The distance findBestMatch reports; floating point, never inspected by this code */
  type Distance(==, !new)

  /** The label findBestMatch returns when no reference is within its threshold (0.6) */
  const UnknownLabel := "unknown"
  const ModelsNotFound := "Face recognition models not found. Please download them first."
  const NoReferenceFaces := "No reference faces loaded. Please add images to the Images folder."
  const NoFaceDetected := "No face detected in image"
  const FaceNotRecognized := "Face not recognized"
  const TrainingReloaded := "Training data reloaded"

  /** One gallery entry, `{label, descriptors}` (`label` is a Dafny keyword: the field is `name`) */
  datatype LabeledDescriptors = LabeledDescriptors(name: string, descriptors: seq<Descriptor>)

  /** What canvas.loadImage is given: a file of the Images directory (the path
      `path.join(IMAGES_PATH, file)`), another file path, or an uploaded buffer */
  datatype ImageSource = ReferenceFile(file: string) | FilePath(path: string) | Buffer(bytes: seq<bv8>)

  /** canvas.loadImage resolves to an image or rejects */
  datatype Loaded = Decoded(image: Image) | LoadThrew(message: string)

  /** The detection chain resolves to one face's descriptor, to `undefined`, or rejects */
  datatype Detection = Face(descriptor: Descriptor) | NoFace | DetectThrew(message: string)

  /** `{label, distance}` as returned by findBestMatch (the label as `name`) */
  datatype BestMatch = BestMatch(name: string, distance: Distance)

  /** The foreign calls, as total functions of their arguments */
  datatype Oracles = Oracles(
    loadImage: ImageSource -> Loaded,
    detect: Image -> Detection,
    findBestMatch: (seq<LabeledDescriptors>, Descriptor) -> BestMatch)

  /** Whether each of the three `loadFromDisk` calls (SSD MobileNet v1, 68-point landmarks,
      recognition net) resolves */
  datatype ModelWeights = ModelWeights(ssdMobilenetv1: bool, faceLandmark68Net: bool, faceRecognitionNet: bool) {
    predicate AllLoad() {
      ssdMobilenetv1 && faceLandmark68Net && faceRecognitionNet
    }
  }

  /** The Images directory as the file system shows it: missing, listed, or failing
      (readdirSync or mkdirSync throwing) */
  datatype ImagesDir = Missing | Listing(entries: seq<string>) | Unreadable(message: string)

  // ---------------------------------------------------------------------------
  // Reference files and labels

  /** `/\.(jpg|jpeg|png)$/i.test(file)` */
  predicate IsReferenceImage(file: string) {
    EndsWithIgnoringCase(file, ".jpg") || EndsWithIgnoringCase(file, ".jpeg") || EndsWithIgnoringCase(file, ".png")
  }

  /** The name is, in some letter case, exactly one of the three image extensions. */
  predicate IsImageExtension(ext: string) {
    IsReferenceImage(ext) && |ext| <= 5 && (|ext| == 5 ==> EndsWithIgnoringCase(ext, ".jpeg"))
  }

  /** `readdirSync(...).filter(...)`: the reference images of a listing, in listing order */
  function ReferenceFiles(entries: seq<string>): (files: seq<string>)
    ensures forall f :: f in files <==> f in entries && IsReferenceImage(f)
    ensures |files| <= |entries|
    ensures |entries| == 1 ==> files == if IsReferenceImage(entries[0]) then entries else []
  {
    if entries == [] then []
    else (if IsReferenceImage(entries[0]) then [entries[0]] else []) + ReferenceFiles(entries[1..])
  }

  /** The filter keeps listing order and multiplicity: filtering a concatenation concatenates
      the filtered parts. */
  lemma {:induction false} ReferenceFilesAppend(a: seq<string>, b: seq<string>)
    ensures ReferenceFiles(a + b) == ReferenceFiles(a) + ReferenceFiles(b)
  {
    if a == [] {
      assert a + b == b;
    } else {
      assert (a + b)[0] == a[0] && (a + b)[1..] == a[1..] + b;
      ReferenceFilesAppend(a[1..], b);
    }
  }

  /** The index of the last '.' of s */
  function LastDot(s: string): (d: Option<nat>)
    ensures d.Some? ==> d.value < |s| && s[d.value] == '.' && '.' !in s[d.value + 1..]
    ensures d.None? ==> '.' !in s
  {
    if s == [] then None
    else if s[|s| - 1] == '.' then Some(|s| - 1)
    else
      var d := LastDot(s[..|s| - 1]);
      assert s == s[..|s| - 1] + [s[|s| - 1]];
      d
  }

  /** `path.parse(base).ext` for a directory entry (a name without '/'): from the last '.' on,
      except that a name whose only leading part is dots (".png", "..") has no extension */
  function ExtName(base: string): (ext: string)
    ensures ext == [] || ext[0] == '.'
    ensures |ext| <= |base| && EndsWith(base, ext)
  {
    match LastDot(base)
    case None => ""
    case Some(d) => if d == 0 || base == ".." then "" else base[d..]
  }

  /** `path.parse(base).name`: the label of a reference image */
  function Stem(base: string): (name: string)
    ensures name + ExtName(base) == base
  {
    base[..|base| - |ExtName(base)|]
  }

  /** The position of a dot after which no dot follows is the last dot. */
  lemma LastDotAt(s: string, p: nat)
    requires p < |s| && s[p] == '.'
    requires forall i :: p < i < |s| ==> s[i] != '.'
    ensures LastDot(s) == Some(p)
  {
    assert s[p] in s;
  }

  /** A case-insensitive `.xyz` suffix starts at the last dot of the name. */
  lemma ExtensionIsLastDot(file: string, e: string)
    requires EndsWithIgnoringCase(file, e)
    requires |e| >= 2 && e[0] == '.' && forall j :: 1 <= j < |e| ==> e[j] != '.'
    ensures LastDot(file) == Some(|file| - |e|)
  {
    var p := |file| - |e|;
    assert LowerChar(file[p + 0]) == e[0];
    forall i | p < i < |file|
      ensures file[i] != '.'
    {
      assert LowerChar(file[p + (i - p)]) == e[i - p];
    }
    LastDotAt(file, p);
  }

  /** path.parse takes a case-insensitive image suffix as the extension, unless the name is
      nothing but that suffix. */
  lemma ImageSuffixIsExtension(file: string, e: string)
    requires e == ".jpg" || e == ".jpeg" || e == ".png"
    requires EndsWithIgnoringCase(file, e)
    ensures ExtName(file) == if |file| == |e| then "" else file[|file| - |e|..]
  {
    ExtensionIsLastDot(file, e);
  }

  /** The suffix that matched is itself the extension in some letter case. */
  lemma MatchedSuffixIsImageExtension(file: string, e: string)
    requires e == ".jpg" || e == ".jpeg" || e == ".png"
    requires EndsWithIgnoringCase(file, e)
    ensures IsImageExtension(file[|file| - |e|..])
  {
    var ext := file[|file| - |e|..];
    forall i | 0 <= i < |e|
      ensures LowerChar(ext[|ext| - |e| + i]) == e[i]
    {
      assert ext[i] == file[|file| - |e| + i];
    }
  }

  /** The label of an accepted file is the file name without its image extension, unless the file
      name is nothing but the extension (".png"), which path.parse leaves whole. */
  lemma StemOfReferenceImage(file: string)
    requires IsReferenceImage(file)
    ensures ExtName(file) != "" ==> IsImageExtension(ExtName(file)) && |Stem(file)| == |file| - |ExtName(file)|
    ensures ExtName(file) == "" ==> IsImageExtension(file) && Stem(file) == file
  {
    var e := if EndsWithIgnoringCase(file, ".jpg") then ".jpg"
             else if EndsWithIgnoringCase(file, ".png") then ".png" else ".jpeg";
    ImageSuffixIsExtension(file, e);
    MatchedSuffixIsImageExtension(file, e);
    if |file| == |e| {
      assert file[|file| - |e|..] == file;
    }
  }

  // ---------------------------------------------------------------------------
  // The gallery

  /** The gallery entry one reference file contributes: one descriptor under the file's stem when
      loading and detection both succeed, nothing when no face is found or either call throws */
  function EntryOf(file: string, o: Oracles): (entry: Option<LabeledDescriptors>)
    ensures entry.Some? <==>
      o.loadImage(ReferenceFile(file)).Decoded? && o.detect(o.loadImage(ReferenceFile(file)).image).Face?
    ensures entry.Some? ==>
      && entry.value.name == Stem(file)
      && entry.value.descriptors == [o.detect(o.loadImage(ReferenceFile(file)).image).descriptor]
  {
    match o.loadImage(ReferenceFile(file))
    case LoadThrew(_) => None
    case Decoded(image) =>
      match o.detect(image)
      case Face(descriptor) => Some(LabeledDescriptors(Stem(file), [descriptor]))
      case NoFace => None
      case DetectThrew(_) => None
  }

  function EntryList(file: string, o: Oracles): seq<LabeledDescriptors> {
    match EntryOf(file, o)
    case Some(e) => [e]
    case None => []
  }

  /** The gallery the `for` loop of loadReferenceImages builds from the accepted files */
  function Gallery(files: seq<string>, o: Oracles): (g: seq<LabeledDescriptors>)
    ensures |g| <= |files|
    ensures forall e :: e in g ==> |e.descriptors| == 1
  {
    if files == [] then []
    else Gallery(files[..|files| - 1], o) + EntryList(files[|files| - 1], o)
  }

  /** What loadReferenceImages resolves to for a directory state */
  function GalleryOf(dir: ImagesDir, o: Oracles): (g: seq<LabeledDescriptors>)
    ensures !dir.Listing? ==> g == []
    ensures dir.Listing? ==> |g| <= |dir.entries|
  {
    match dir
    case Listing(entries) => Gallery(ReferenceFiles(entries), o)
    case _ => []
  }

  /** Building the gallery is order preserving: the gallery of a concatenation of listings is the
      concatenation of their galleries. */
  lemma {:induction false} GalleryAppend(a: seq<string>, b: seq<string>, o: Oracles)
    ensures Gallery(a + b, o) == Gallery(a, o) + Gallery(b, o)
  {
    if b == [] {
      assert a + b == a;
    } else {
      var b' := b[..|b| - 1];
      assert (a + b)[..|a + b| - 1] == a + b';
      assert (a + b)[|a + b| - 1] == b[|b| - 1];
      GalleryAppend(a, b', o);
    }
  }

  /** A file that yields no entry (no face, or loading or detection throws) is skipped, and the
      files after it are still processed. */
  lemma SkippedFileLeavesGallery(a: seq<string>, file: string, b: seq<string>, o: Oracles)
    requires EntryOf(file, o).None?
    ensures Gallery(a + [file] + b, o) == Gallery(a + b, o)
  {
    assert Gallery([file], o) == [] by {
      assert [file][..0] == [];
    }
    calc {
      Gallery(a + [file] + b, o);
      { GalleryAppend(a + [file], b, o); }
      Gallery(a + [file], o) + Gallery(b, o);
      { GalleryAppend(a, [file], o); }
      Gallery(a, o) + Gallery(b, o);
      { GalleryAppend(a, b, o); }
      Gallery(a + b, o);
    }
  }

  /** Every gallery entry comes from one of the files. */
  lemma {:induction false} GalleryEntriesComeFromFiles(files: seq<string>, o: Oracles)
    ensures forall e :: e in Gallery(files, o) ==> exists f :: f in files && EntryOf(f, o) == Some(e)
  {
    if files != [] {
      var init := files[..|files| - 1];
      var last := files[|files| - 1];
      GalleryEntriesComeFromFiles(init, o);
      forall e | e in Gallery(files, o)
        ensures exists f :: f in files && EntryOf(f, o) == Some(e)
      {
        if e in Gallery(init, o) {
          var f :| f in init && EntryOf(f, o) == Some(e);
          assert f in files;
        } else {
          assert EntryOf(last, o) == Some(e);
        }
      }
    }
  }

  /** Every file that yields an entry has it in the gallery. */
  lemma {:induction false} FilesWithFacesAreInGallery(files: seq<string>, o: Oracles)
    ensures forall f :: f in files && EntryOf(f, o).Some? ==> EntryOf(f, o).value in Gallery(files, o)
  {
    if files != [] {
      var init := files[..|files| - 1];
      var last := files[|files| - 1];
      FilesWithFacesAreInGallery(init, o);
      assert Gallery(files, o) == Gallery(init, o) + EntryList(last, o);
      forall f | f in files && EntryOf(f, o).Some?
        ensures EntryOf(f, o).value in Gallery(files, o)
      {
        var i :| 0 <= i < |files| && files[i] == f;
        if i < |files| - 1 {
          assert init[i] == f;
          assert EntryOf(f, o).value in Gallery(init, o);
        } else {
          assert EntryOf(last, o).value in EntryList(last, o);
        }
      }
    }
  }

  /** The gallery holds at most one entry per accepted file. */
  lemma {:induction false} GalleryLength(files: seq<string>, o: Oracles)
    ensures |Gallery(files, o)| <= |files|
  {
    if files != [] {
      GalleryLength(files[..|files| - 1], o);
    }
  }

  /** Every entry the gallery holds has exactly one descriptor, labelled with its file's stem. */
  lemma GalleryEntriesWellFormed(dir: ImagesDir, o: Oracles)
    ensures forall k :: 0 <= k < |GalleryOf(dir, o)| ==> |GalleryOf(dir, o)[k].descriptors| == 1
    ensures dir.Listing? ==> forall e :: e in GalleryOf(dir, o) ==>
              exists f :: f in dir.entries && IsReferenceImage(f) && e.name == Stem(f)
  {
    if dir.Listing? {
      var files := ReferenceFiles(dir.entries);
      GalleryEntriesComeFromFiles(files, o);
      forall k | 0 <= k < |GalleryOf(dir, o)|
        ensures |GalleryOf(dir, o)[k].descriptors| == 1
      {
        var e := GalleryOf(dir, o)[k];
        assert e in Gallery(files, o);
        var f :| f in files && EntryOf(f, o) == Some(e);
      }
    }
  }

  /** A missing or unreadable directory, and a listing without reference images, give an empty
      gallery. */
  lemma EmptyGalleries(dir: ImagesDir, o: Oracles)
    requires dir.Missing? || dir.Unreadable? || (dir.Listing? && forall f :: f in dir.entries ==> !IsReferenceImage(f))
    ensures GalleryOf(dir, o) == []
  {
    if dir.Listing? {
      var files := ReferenceFiles(dir.entries);
      assert forall k :: 0 <= k < |files| ==> files[k] in files;
    }
  }

  /** loadReferenceImages: creates a missing directory (`created`), filters the listing and runs
      detection on each accepted file in turn, keeping the ones where a face was found. */
  method LoadReferenceImages(dir: ImagesDir, o: Oracles) returns (gallery: seq<LabeledDescriptors>, created: bool)
    ensures gallery == GalleryOf(dir, o)
    ensures created <==> dir.Missing?
  {
    created := false;
    if dir.Missing? {
      created := true;
      return [], created;
    }
    if dir.Unreadable? {
      return [], created;
    }
    var files := ReferenceFiles(dir.entries);
    if |files| == 0 {
      return [], created;
    }
    gallery := [];
    for i := 0 to |files|
      invariant gallery == Gallery(files[..i], o)
    {
      GalleryStep(files, i, o);
      var name := Stem(files[i]);
      var loaded := o.loadImage(ReferenceFile(files[i]));
      if loaded.Decoded? {
        var detection := o.detect(loaded.image);
        if detection.Face? {
          gallery := gallery + [LabeledDescriptors(name, [detection.descriptor])];
        }
      }
    }
    assert files[..|files|] == files;
  }

  lemma GalleryStep(files: seq<string>, i: nat, o: Oracles)
    requires i < |files|
    ensures Gallery(files[..i + 1], o) == Gallery(files[..i], o) + EntryList(files[i], o)
  {
    assert files[..i + 1][..i] == files[..i];
  }

  /** The labels of a gallery, in gallery order */
  function Labels(gallery: seq<LabeledDescriptors>): (labels: seq<string>)
    ensures |labels| == |gallery|
    ensures forall k :: 0 <= k < |gallery| ==> labels[k] == gallery[k].name
  {
    if gallery == [] then [] else [gallery[0].name] + Labels(gallery[1..])
  }

  // ---------------------------------------------------------------------------
  // Verification of one probe image

  /** The outcomes of verifyFace */
  datatype Outcome =
    | NoReferenceData
    | NoFaceFound
    | NotRecognized(distance: Distance)
    | Recognized(name: string, distance: Distance)
    | Failed(message: string)

  /** `Math.round((1 - distance) * 100)`, kept symbolic: the floating-point arithmetic is not modelled */
  datatype Confidence = RoundedPercent(distance: Distance)

  /** The object verifyFace resolves to; a key that the object does not have is None */
  datatype Verdict = Verdict(
    success: bool,
    recognized: Option<bool>,
    name: Option<string>,
    error: Option<string>,
    confidence: Option<Confidence>)

  /** verifyFace's case split after the models are loaded: an empty gallery is refused before the
      probe is decoded; then decoding, detection and matching are asked in turn. */
  function Classify(gallery: seq<LabeledDescriptors>, input: ImageSource, o: Oracles): (out: Outcome)
    ensures out.NoReferenceData? <==> gallery == []
    ensures out.NoFaceFound? <==>
      gallery != [] && o.loadImage(input).Decoded? && o.detect(o.loadImage(input).image).NoFace?
    ensures out.Recognized? || out.NotRecognized? <==>
      gallery != [] && o.loadImage(input).Decoded? && o.detect(o.loadImage(input).image).Face?
    ensures out.Recognized? || out.NotRecognized? ==>
      var best := o.findBestMatch(gallery, o.detect(o.loadImage(input).image).descriptor);
      out.distance == best.distance && (out.Recognized? <==> best.name != UnknownLabel) &&
      (out.Recognized? ==> out.name == best.name)
    ensures out.Failed? ==>
      (o.loadImage(input).LoadThrew? && out.message == o.loadImage(input).message) ||
      (o.loadImage(input).Decoded? && o.detect(o.loadImage(input).image).DetectThrew? &&
       out.message == o.detect(o.loadImage(input).image).message)
  {
    if gallery == [] then NoReferenceData
    else
      match o.loadImage(input)
      case LoadThrew(message) => Failed(message)
      case Decoded(image) =>
        match o.detect(image)
        case DetectThrew(message) => Failed(message)
        case NoFace => NoFaceFound
        case Face(descriptor) =>
          var best := o.findBestMatch(gallery, descriptor);
          if best.name == UnknownLabel then NotRecognized(best.distance)
          else Recognized(best.name, best.distance)
  }

  /** The object verifyFace builds for an outcome */
  function ToVerdict(out: Outcome): (v: Verdict)
    ensures v.success <==> out.Recognized?
    ensures v.recognized == Some(true) <==> out.Recognized?
    ensures v.recognized == Some(false) <==> out.NotRecognized?
    ensures v.name.Some? <==> out.Recognized?
    ensures out.Recognized? ==> v.name == Some(out.name)
    ensures out.Recognized? || out.NotRecognized? <==> v.confidence.Some?
    ensures v.confidence.Some? ==> v.confidence.value == RoundedPercent(out.distance)
    ensures v.error.None? <==> out.Recognized?
    ensures out.Failed? ==> v.error == Some(out.message)
    ensures out.NoReferenceData? ==> v.error == Some(NoReferenceFaces)
    ensures out.NoFaceFound? ==> v.error == Some(NoFaceDetected)
    ensures out.NotRecognized? ==> v.error == Some(FaceNotRecognized)
  {
    match out
    case NoReferenceData => Verdict(false, None, None, Some(NoReferenceFaces), None)
    case NoFaceFound => Verdict(false, None, None, Some(NoFaceDetected), None)
    case NotRecognized(distance) =>
      Verdict(false, Some(false), None, Some(FaceNotRecognized), Some(RoundedPercent(distance)))
    case Recognized(name, distance) =>
      Verdict(true, Some(true), Some(name), None, Some(RoundedPercent(distance)))
    case Failed(message) => Verdict(false, None, None, Some(message), None)
  }

  /** With an empty gallery the answer does not depend on any foreign call: no image is decoded. */
  lemma EmptyGalleryDecodesNothing(input: ImageSource, o1: Oracles, o2: Oracles)
    ensures Classify([], input, o1) == Classify([], input, o2) == NoReferenceData
  {
  }

  /** A reference file whose stem is "unknown" enters the gallery under the sentinel's own name, so
      matching it can never be told apart from "no match": its label is never recognised. */
  lemma UnknownStemNeverRecognized(file: string, gallery: seq<LabeledDescriptors>, input: ImageSource, o: Oracles)
    requires Stem(file) == UnknownLabel
    ensures !(Classify(gallery, input, o).Recognized? && Classify(gallery, input, o).name == Stem(file))
  {
  }

  /** "unknown.jpg" is such a file. */
  lemma UnknownJpgIsAReferenceImage()
    ensures IsReferenceImage("unknown.jpg") && Stem("unknown.jpg") == UnknownLabel
  {
    var file := "unknown.jpg";
    forall i | 0 <= i < 4
      ensures LowerChar(file[|file| - 4 + i]) == ".jpg"[i]
    {
      if i == 0 {} else if i == 1 {} else if i == 2 {} else {}
    }
    ExtensionIsLastDot(file, ".jpg");
    assert ExtName(file) == file[7..] == ".jpg";
    assert file[..7] == UnknownLabel;
  }

  /** An assumption about face-api.js, whose source is not part of this model: findBestMatch
      answers either the sentinel or the label of one of the gallery's entries. */
  ghost predicate MatcherAnswersFromGallery(o: Oracles) {
    forall gallery, d :: o.findBestMatch(gallery, d).name == UnknownLabel ||
      o.findBestMatch(gallery, d).name in Labels(gallery)
  }

  /** Under that assumption, a recognised name is the stem of a reference image of the listing the
      gallery was built from, whose detection found a face, and that stem is not "unknown". */
  lemma RecognizedNameIsEnrolled(dir: ImagesDir, input: ImageSource, o: Oracles)
    requires MatcherAnswersFromGallery(o)
    requires Classify(GalleryOf(dir, o), input, o).Recognized?
    ensures dir.Listing?
    ensures var name := Classify(GalleryOf(dir, o), input, o).name;
      name != UnknownLabel &&
      exists f :: f in dir.entries && IsReferenceImage(f) && EntryOf(f, o).Some? && Stem(f) == name
  {
    var g := GalleryOf(dir, o);
    var name := Classify(g, input, o).name;
    var d := o.detect(o.loadImage(input).image).descriptor;
    assert o.findBestMatch(g, d).name == name;
    assert name in Labels(g);
    var k :| 0 <= k < |g| && Labels(g)[k] == name;
    if !dir.Listing? {
      assert false;
    }
    var files := ReferenceFiles(dir.entries);
    GalleryEntriesComeFromFiles(files, o);
    assert g[k] in Gallery(files, o);
    var f :| f in files && EntryOf(f, o) == Some(g[k]);
    assert Stem(f) == name;
  }

  // ---------------------------------------------------------------------------
  // The module state

  /** The module-level `isModelLoaded` and `labeledDescriptors` of faceRecognition.js */
  class FaceRecognizer {
    var modelLoaded: bool
    var gallery: seq<LabeledDescriptors>

    /** Every entry holds exactly the one descriptor of its reference image. */
    ghost predicate Valid()
      reads this
    {
      forall k :: 0 <= k < |gallery| ==> |gallery[k].descriptors| == 1
    }

    /** The state when the module is first required */
    constructor ()
      ensures Valid() && !modelLoaded && gallery == []
    {
      modelLoaded := false;
      gallery := [];
    }

    /** loadModels: nothing once the flag is set; otherwise the three loads in turn, the flag
        set only when all three succeed, and the fixed message thrown when one fails. */
    method LoadModels(weights: ModelWeights) returns (thrown: Option<string>)
      modifies this`modelLoaded
      ensures old(modelLoaded) ==> modelLoaded && thrown == None
      ensures !old(modelLoaded) ==> modelLoaded == weights.AllLoad()
      ensures thrown == if modelLoaded then None else Some(ModelsNotFound)
    {
      if modelLoaded {
        return None;
      }
      if !weights.ssdMobilenetv1 {
        return Some(ModelsNotFound);
      }
      if !weights.faceLandmark68Net {
        return Some(ModelsNotFound);
      }
      if !weights.faceRecognitionNet {
        return Some(ModelsNotFound);
      }
      modelLoaded := true;
      return None;
    }

    /** initialize: true when the models are (or become) loaded, and then the gallery is rebuilt;
        false when loading fails, and then the gallery is left as it was. */
    method Initialize(weights: ModelWeights, dir: ImagesDir, o: Oracles) returns (ok: bool)
      requires Valid()
      modifies this
      ensures Valid()
      ensures ok <==> old(modelLoaded) || weights.AllLoad()
      ensures modelLoaded == ok
      ensures gallery == if ok then GalleryOf(dir, o) else old(gallery)
    {
      var thrown := LoadModels(weights);
      if thrown.Some? {
        return false;
      }
      var created;
      gallery, created := LoadReferenceImages(dir, o);
      GalleryEntriesWellFormed(dir, o);
      return true;
    }

    /** verifyFace: loads the models when the flag is not set (a failure becomes the verdict's
        error), then classifies the probe against the current gallery, which it does not change. */
    method VerifyFace(input: ImageSource, weights: ModelWeights, o: Oracles) returns (v: Verdict)
      modifies this`modelLoaded
      ensures modelLoaded <==> old(modelLoaded) || weights.AllLoad()
      ensures v == ToVerdict(if modelLoaded then Classify(gallery, input, o) else Failed(ModelsNotFound))
    {
      if !modelLoaded {
        var thrown := LoadModels(weights);
        if thrown.Some? {
          return ToVerdict(Failed(thrown.value));
        }
      }
      v := ToVerdict(Classify(gallery, input, o));
    }

    /** reloadTraining: the gallery is replaced by a fresh scan, and the reply counts its entries;
        the scan never throws, so the failure reply is never produced. */
    method ReloadTraining(dir: ImagesDir, o: Oracles) returns (r: ReloadResult)
      requires Valid()
      modifies this`gallery
      ensures Valid()
      ensures gallery == GalleryOf(dir, o)
      ensures r == Reloaded(TrainingReloaded, |gallery|)
    {
      var created;
      gallery, created := LoadReferenceImages(dir, o);
      GalleryEntriesWellFormed(dir, o);
      r := Reloaded(TrainingReloaded, |gallery|);
    }

    /** getLoadedFaces: the labels, in gallery order */
    function GetLoadedFaces(): (labels: seq<string>)
      reads this
      ensures |labels| == |gallery|
      ensures forall k :: 0 <= k < |gallery| ==> labels[k] == gallery[k].name
    {
      Labels(gallery)
    }
  }

  /** The object reloadTraining resolves to */
  datatype ReloadResult = Reloaded(message: string, facesLoaded: nat) | ReloadFailed(error: string)
}
