/** The face detector's own logic around the face landmark library: the
    page-relative model and script paths, the options handed to the
    library, and the flattening of its results into detected faces with
    typed landmarks. */
module FaceDetector {
  import opened Wrappers
  import opened Geometry
  import opened Sequences
  import opened Paths

  // ---------------------------------------------------------------------
  // Library results

  /** The point lists the library's landmark getters return. */
  datatype FaceLandmarks = FaceLandmarks(
    mouth: seq<Point>, leftEye: seq<Point>, rightEye: seq<Point>, nose: seq<Point>,
    leftEyeBrow: seq<Point>, rightEyeBrow: seq<Point>, jawOutline: seq<Point>, refPointsForAlignment: seq<Point>)

  /** A detection: its box and score. */
  datatype Detection = Detection(box: Rect, score: real)

  /** One result of detecting faces with landmarks. */
  datatype FaceResult = FaceResult(detection: Detection, landmarks: FaceLandmarks)

  /** A landmark as the Shape Detection API describes it. */
  datatype Landmark = Landmark(kind: string, locations: seq<Point>)

  /** A detected face, with the detection score. */
  datatype DetectedFace = DetectedFace(boundingBox: Rect, landmarks: seq<Landmark>, score: real)

  /** The landmark types, each with the point lists of that type, in the
      order the source lists them. */
  function LandmarkMap(l: FaceLandmarks): seq<(string, seq<seq<Point>>)> {
    [("mouth", [l.mouth]),
     ("eye", [l.leftEye, l.rightEye]),
     ("nose", [l.nose]),
     ("_eyeBrow", [l.leftEyeBrow, l.rightEyeBrow]),
     ("_jawOutline", [l.jawOutline]),
     ("_refPointsForAlignment", [l.refPointsForAlignment])]
  }

  /** One landmark per point list of one type. */
  function OfKind(kind: string, lists: seq<seq<Point>>): (r: seq<Landmark>)
    ensures |r| == |lists| && forall j :: 0 <= j < |lists| ==> r[j] == Landmark(kind, lists[j])
  {
    seq(|lists|, j requires 0 <= j < |lists| => Landmark(kind, lists[j]))
  }

  /** The landmarks of the first n entries, in order. */
  function Flattened(entries: seq<(string, seq<seq<Point>>)>, n: nat): seq<Landmark>
    requires n <= |entries|
  {
    if n == 0 then [] else Flattened(entries, n - 1) + OfKind(entries[n - 1].0, entries[n - 1].1)
  }

  /** How many point lists the first n entries hold. */
  function ListCount(entries: seq<(string, seq<seq<Point>>)>, n: nat): nat
    requires n <= |entries|
  {
    if n == 0 then 0 else ListCount(entries, n - 1) + |entries[n - 1].1|
  }

  /** Flattening keeps every point list, as one landmark each. */
  lemma {:induction false} FlattenedCount(entries: seq<(string, seq<seq<Point>>)>, n: nat)
    requires n <= |entries|
    ensures |Flattened(entries, n)| == ListCount(entries, n)
  {
    if n > 0 {
      FlattenedCount(entries, n - 1);
    }
  }

  /** The landmarks of a face. */
  function Landmarks(l: FaceLandmarks): seq<Landmark> {
    Flattened(LandmarkMap(l), 6)
  }

  /** A face has eight landmarks, typed in the source's order, each with
      the points of its getter. */
  lemma LandmarksInOrder(l: FaceLandmarks)
    ensures Landmarks(l) == [
      Landmark("mouth", l.mouth), Landmark("eye", l.leftEye), Landmark("eye", l.rightEye),
      Landmark("nose", l.nose), Landmark("_eyeBrow", l.leftEyeBrow), Landmark("_eyeBrow", l.rightEyeBrow),
      Landmark("_jawOutline", l.jawOutline), Landmark("_refPointsForAlignment", l.refPointsForAlignment)]
  {
    var m := LandmarkMap(l);
    assert Flattened(m, 1) == [Landmark("mouth", l.mouth)];
    assert Flattened(m, 2) == Flattened(m, 1) + [Landmark("eye", l.leftEye), Landmark("eye", l.rightEye)];
    assert Flattened(m, 3) == Flattened(m, 2) + [Landmark("nose", l.nose)];
    assert Flattened(m, 4) == Flattened(m, 3) + [Landmark("_eyeBrow", l.leftEyeBrow), Landmark("_eyeBrow", l.rightEyeBrow)];
    assert Flattened(m, 5) == Flattened(m, 4) + [Landmark("_jawOutline", l.jawOutline)];
    assert Flattened(m, 6) == Flattened(m, 5) + [Landmark("_refPointsForAlignment", l.refPointsForAlignment)];
  }

  /** The detected face of one result. */
  function ToDetectedFace(r: FaceResult): DetectedFace {
    DetectedFace(r.detection.box, Landmarks(r.landmarks), r.detection.score)
  }

  /** `sourceLandmark.map(point => ({ x: point.x, y: point.y }))`: a copy
      with the same points in the same order. */
  function CopyLocations(points: seq<Point>): (r: seq<Point>)
    ensures r == points
  {
    var copy := Map((p: Point) => Point(p.x, p.y), points);
    assert forall i :: 0 <= i < |points| ==> copy[i] == points[i];
    copy
  }

  /** The landmark loop of `_parseResult`: for each type, one landmark per
      point list. */
  method MapLandmarks(l: FaceLandmarks) returns (landmarks: seq<Landmark>)
    ensures landmarks == Landmarks(l)
  {
    var landmarkMap := LandmarkMap(l);
    landmarks := [];
    for e := 0 to |landmarkMap|
      invariant landmarks == Flattened(landmarkMap, e)
    {
      var (kind, sourceLandmarks) := landmarkMap[e];
      for s := 0 to |sourceLandmarks|
        invariant landmarks == Flattened(landmarkMap, e) + OfKind(kind, sourceLandmarks[..s])
      {
        var landmark := Landmark(kind, CopyLocations(sourceLandmarks[s]));
        landmarks := landmarks + [landmark];
      }
      assert sourceLandmarks[..|sourceLandmarks|] == sourceLandmarks;
    }
  }

  /** `_parseResult`: no results are passed on as they are; otherwise one
      detected face per result, in order. */
  method ParseResult(results: Option<seq<FaceResult>>) returns (detectedFaces: Option<seq<DetectedFace>>)
    ensures results.None? ==> detectedFaces.None?
    ensures results.Some? ==> detectedFaces == Some(Map(ToDetectedFace, results.value))
  {
    if results.None? {
      return None;
    }
    var faces: seq<DetectedFace> := [];
    for i := 0 to |results.value|
      invariant |faces| == i && forall j :: 0 <= j < i ==> faces[j] == ToDetectedFace(results.value[j])
    {
      var result := results.value[i];
      var boundingBox := result.detection.box;
      var landmarks := MapLandmarks(result.landmarks);
      faces := faces + [DetectedFace(boundingBox, landmarks, result.detection.score)];
    }
    assert faces == Map(ToDetectedFace, results.value);
    detectedFaces := Some(faces);
  }

  /** Every detected face has the box and score of its result and its
      eight landmarks. */
  lemma ParsedFaces(results: seq<FaceResult>)
    ensures |Map(ToDetectedFace, results)| == |results|
    ensures forall i :: 0 <= i < |results| ==>
      var f := Map(ToDetectedFace, results)[i];
      f.boundingBox == results[i].detection.box && f.score == results[i].detection.score && |f.landmarks| == 8
  {
    forall i | 0 <= i < |results|
      ensures |Landmarks(results[i].landmarks)| == 8
    {
      LandmarksInOrder(results[i].landmarks);
    }
  }

  // ---------------------------------------------------------------------
  // Options and startup

  /** Options a caller passes; an absent field keeps its current value. */
  datatype FaceOptions = FaceOptions(maxDetectedFaces: Option<Option<nat>>, fastMode: Option<bool>, inputSize: Option<nat>, scoreThreshold: Option<real>)

  /** The options handed to the library's tiny face detector. */
  datatype DetectorOptions = DetectorOptions(inputSize: nat, scoreThreshold: real)

  class FaceDetector {
    var maxDetectedFaces: Option<nat>
    var fastMode: bool
    var inputSize: nat
    var scoreThreshold: real

    /** The defaults, overridden by the options given. */
    constructor (options: FaceOptions)
      ensures maxDetectedFaces == (if options.maxDetectedFaces.Some? then options.maxDetectedFaces.value else None)
      ensures fastMode == (if options.fastMode.Some? then options.fastMode.value else false)
      ensures inputSize == (if options.inputSize.Some? then options.inputSize.value else 224)
      ensures scoreThreshold == (if options.scoreThreshold.Some? then options.scoreThreshold.value else 0.5)
    {
      maxDetectedFaces := if options.maxDetectedFaces.Some? then options.maxDetectedFaces.value else None;
      fastMode := if options.fastMode.Some? then options.fastMode.value else false;
      inputSize := if options.inputSize.Some? then options.inputSize.value else 224;
      scoreThreshold := if options.scoreThreshold.Some? then options.scoreThreshold.value else 0.5;
    }

    /** The option handling of `detect`: the call's options are merged into
        the detector's own, where they stay for later calls, and the input
        size and score threshold are passed on. */
    method CombineOptions(options: FaceOptions) returns (detectOptions: DetectorOptions)
      modifies this
      ensures maxDetectedFaces == (if options.maxDetectedFaces.Some? then options.maxDetectedFaces.value else old(maxDetectedFaces))
      ensures fastMode == (if options.fastMode.Some? then options.fastMode.value else old(fastMode))
      ensures inputSize == (if options.inputSize.Some? then options.inputSize.value else old(inputSize))
      ensures scoreThreshold == (if options.scoreThreshold.Some? then options.scoreThreshold.value else old(scoreThreshold))
      ensures detectOptions == DetectorOptions(inputSize, scoreThreshold)
    {
      if options.maxDetectedFaces.Some? {
        maxDetectedFaces := options.maxDetectedFaces.value;
      }
      if options.fastMode.Some? {
        fastMode := options.fastMode.value;
      }
      if options.inputSize.Some? {
        inputSize := options.inputSize.value;
      }
      if options.scoreThreshold.Some? {
        scoreThreshold := options.scoreThreshold.value;
      }
      detectOptions := DetectorOptions(inputSize, scoreThreshold);
    }
  }

  /** The model directory and the library script, relative to this
      script. */
  const ModelDirectory: string := "./depends/"
  const LibraryScript: string := "./depends/face-api.min.js"

  /** The paths of `_startup`: each resolved against this script's URL,
      then made relative to the page. */
  method StartupPaths(resolve: string -> string, base: string) returns (baseUrl: string, scriptFile: string)
    ensures baseUrl == RelativePath(resolve(ModelDirectory), base)
    ensures scriptFile == RelativePath(resolve(LibraryScript), base)
  {
    baseUrl := ModelDirectory;
    baseUrl := resolve(baseUrl);
    baseUrl := Relativise(baseUrl, base);
    scriptFile := LibraryScript;
    scriptFile := resolve(scriptFile);
    scriptFile := Relativise(scriptFile, base);
  }
}
