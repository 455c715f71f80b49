/**
 * The io.github MarsHips driver's label reader, readMetadata: it scans the PDS label
 * of a Curiosity image line by line for six values (the instrument's azimuth and
 * elevation, the image request's LINE_SAMPLES and LINES, the horizontal and
 * vertical field of view) and stores them in three two-element arrays that the
 * object keeps from one image to the next.
 *
 * The label file is its sequence of lines; Double.valueOf is a parameter.  A NaN
 * in the arrays is None.  The outcome of a read says how it ended: normally, on a
 * runtime exception of a malformed line, on the NullPointerException of a body run
 * on the end-of-file null, or on the JHIPSException of an incomplete label.
 */
module GhMarsHips {
  import opened Wrappers
  import opened JavaNumerics
  import opened JavaStrings
  import MastPds

  const NUMBER_VALUE_TO_EXTRACT: nat := 6
  const FIXED_INSTRUMENT_AZIMUTH: string := "FIXED_INSTRUMENT_AZIMUTH"
  const FIXED_INSTRUMENT_ELEVATION: string := "FIXED_INSTRUMENT_ELEVATION"
  const GROUP: string := "GROUP"
  const IMAGE_REQUEST_PARMS: string := "IMAGE_REQUEST_PARMS"
  const LINES: string := "LINES"
  const LINE_SAMPLES: string := "LINE_SAMPLES"
  const HORIZONTAL_FOV: string := "HORIZONTAL_FOV"
  const VERTICAL_FOV: string := "VERTICAL_FOV"
  /** The separator of `split("= ")`, which has no regular-expression metacharacter. */
  const ASSIGN: string := "= "

  /**
   * The reader's state: the counter `found`, the flag `isImageRequestGroup`, and the
   * values held by horizontalCoordinates, imageRequest (samples, lines) and fov.
   */
  datatype Scan = Scan(found: nat, imageRequestGroup: bool,
                       azimuth: Option<real>, elevation: Option<real>,
                       samples: int, lines: int,
                       horizontalFov: Option<real>, verticalFov: Option<real>)

  /** The values the arrays hold, without the counter and the flag. */
  function Extracted(s: Scan): Scan {
    s.(found := 0, imageRequestGroup := false)
  }

  /** One line of the label: the reader's next state, or a runtime exception. */
  datatype LineStep = Next(scan: Scan) | Thrown

  /** How readMetadata ends, with the state it leaves behind. */
  datatype Outcome =
    | NotFound                 // FileNotFoundException: there is no label file
    | Read(scan: Scan)         // a normal return
    | Failed(scan: Scan)       // a malformed line: ArrayIndexOutOfBounds or NumberFormatException
    | Crashed(scan: Scan)      // the loop body run on the null of the end of file
    | Rejected(scan: Scan)     // the JHIPSException after the loop

  /** `line.split("= ")[1]`; None stands for an ArrayIndexOutOfBoundsException. */
  function ValueText(line: string): (r: Option<string>)
    ensures r.Some? <==> |Split(line, ASSIGN)| >= 2
  {
    var parts := Split(line, ASSIGN);
    if |parts| < 2 then None else Some(parts[1])
  }

  /** Math.toRadians(Double.valueOf(value)): None when there is no value or it is not a number. */
  function AngleValue(line: string, parseDouble: string -> Option<real>): (r: Option<real>)
    ensures r.Some? <==> ValueText(line).Some? && parseDouble(ValueText(line).value).Some?
    ensures r.Some? ==> ToDegrees(r.value) == parseDouble(ValueText(line).value).value
  {
    match ValueText(line)
    case None => None
    case Some(v) =>
      match parseDouble(v)
      case None => None
      case Some(d) => RadiansRoundTrip(d); Some(ToRadians(d))
  }

  /** Integer.parseInt(value): None when there is no value or it is not an int. */
  function CountValue(line: string): (r: Option<int>)
    ensures r.Some? <==> ValueText(line).Some? && ParseInt(ValueText(line).value).Some?
    ensures r.Some? ==> r == ParseInt(ValueText(line).value) && INT_MIN <= r.value <= INT_MAX
  {
    match ValueText(line)
    case None => None
    case Some(v) => ParseInt(v)
  }

  lemma RadiansRoundTrip(d: real)
    ensures ToDegrees(ToRadians(d)) == d
  {
    calc {
      ToDegrees(ToRadians(d));
    ==
      (d * PI / 180.0) * 180.0 / PI;
    ==
      d;
    }
  }

  /** The branch of the if/else chain a trimmed line takes. */
  datatype Branch = Azimuth | Elevation | Group | Lines | LineSamples | HorizontalFov | VerticalFov | Other

  /** The tests of the if/else chain, in their order; LINES and LINE_SAMPLES only inside the group. */
  function BranchOf(t: string, imageRequestGroup: bool): Branch {
    if Contains(t, FIXED_INSTRUMENT_AZIMUTH) then Azimuth
    else if Contains(t, FIXED_INSTRUMENT_ELEVATION) then Elevation
    else if StartsWith(t, GROUP) then Group
    else if imageRequestGroup && Contains(t, LINES) then Lines
    else if imageRequestGroup && Contains(t, LINE_SAMPLES) then LineSamples
    else if StartsWith(t, HORIZONTAL_FOV) then HorizontalFov
    else if StartsWith(t, VERTICAL_FOV) then VerticalFov
    else Other
  }

  /** The branches that store a value and increment found. */
  predicate Counted(b: Branch) {
    b != Group && b != Other
  }

  /**
   * The branch `b` on the trimmed line `t`: a value branch stores its value in
   * radians, or as an int for the image request, and counts it; a GROUP line sets the
   * flag to whether it names IMAGE_REQUEST_PARMS.
   */
  function Apply(b: Branch, t: string, s: Scan, parseDouble: string -> Option<real>): (r: LineStep)
    ensures r.Next? ==> r.scan.found == s.found + (if Counted(b) then 1 else 0)
    ensures r.Thrown? ==> Counted(b)
    ensures r.Next? ==>
              (r.scan.azimuth == s.azimuth || b == Azimuth) && (r.scan.elevation == s.elevation || b == Elevation)
              && (r.scan.samples == s.samples || b == LineSamples) && (r.scan.lines == s.lines || b == Lines)
              && (r.scan.horizontalFov == s.horizontalFov || b == HorizontalFov)
              && (r.scan.verticalFov == s.verticalFov || b == VerticalFov)
              && (r.scan.imageRequestGroup == s.imageRequestGroup || b == Group)
    ensures r.Next? && !Counted(b) ==> Extracted(r.scan) == Extracted(s)
  {
    match b
    case Azimuth =>
      (match AngleValue(t, parseDouble)
       case None => Thrown
       case Some(a) => Next(s.(azimuth := Some(a), found := s.found + 1)))
    case Elevation =>
      (match AngleValue(t, parseDouble)
       case None => Thrown
       case Some(a) => Next(s.(elevation := Some(a), found := s.found + 1)))
    case Group => Next(s.(imageRequestGroup := Contains(t, IMAGE_REQUEST_PARMS)))
    case Lines =>
      (match CountValue(t)
       case None => Thrown
       case Some(n) => Next(s.(lines := n, found := s.found + 1)))
    case LineSamples =>
      (match CountValue(t)
       case None => Thrown
       case Some(n) => Next(s.(samples := n, found := s.found + 1)))
    case HorizontalFov =>
      (match AngleValue(t, parseDouble)
       case None => Thrown
       case Some(a) => Next(s.(horizontalFov := Some(a), found := s.found + 1)))
    case VerticalFov =>
      (match AngleValue(t, parseDouble)
       case None => Thrown
       case Some(a) => Next(s.(verticalFov := Some(a), found := s.found + 1)))
    case Other => Next(s)
  }

  /** The loop body on a trimmed line: the line takes its branch of the chain. */
  function Step(t: string, s: Scan, parseDouble: string -> Option<real>): LineStep {
    Apply(BranchOf(t, s.imageRequestGroup), t, s, parseDouble)
  }

  /** The lines of the label as the loop body sees them, each one trimmed. */
  function TrimLines(ls: seq<string>): (ts: seq<string>)
    ensures |ts| == |ls| && forall k :: 0 <= k < |ls| ==> ts[k] == Trim(ls[k])
  {
    seq(|ls|, k requires 0 <= k < |ls| => Trim(ls[k]))
  }

  /**
   * The loop as written, `readLine() != null || found != 6`, from line `i`: every line
   * is read; at the end of the file the loop stops when found is 6 and otherwise runs
   * its body on the null line.
   */
  function ScanAsWritten(ls: seq<string>, i: nat, s: Scan, parseDouble: string -> Option<real>): (r: Outcome)
    requires i <= |ls|
    decreases |ls| - i
    ensures r.Read? || r.Failed? || r.Crashed?
    ensures r.scan.found >= s.found
    ensures r.Read? ==> r.scan.found == NUMBER_VALUE_TO_EXTRACT
    ensures r.Crashed? ==> r.scan.found != NUMBER_VALUE_TO_EXTRACT
  {
    if i == |ls| then
      if s.found == NUMBER_VALUE_TO_EXTRACT then Read(s) else Crashed(s)
    else
      match Step(ls[i], s, parseDouble)
      case Thrown => Failed(s)
      case Next(n) => ScanAsWritten(ls, i + 1, n, parseDouble)
  }

  /**
   * The loop as intended, `readLine() != null && found != 6`, from line `i`: it stops at
   * the end of the file or once six values are found, and an incomplete label is
   * rejected with a JHIPSException.
   */
  function ScanIntended(ls: seq<string>, i: nat, s: Scan, parseDouble: string -> Option<real>): (r: Outcome)
    requires i <= |ls| && s.found <= NUMBER_VALUE_TO_EXTRACT
    decreases |ls| - i
    ensures r.Read? || r.Failed? || r.Rejected?
    ensures s.found <= r.scan.found <= NUMBER_VALUE_TO_EXTRACT
    ensures r.Read? <==> r.scan.found == NUMBER_VALUE_TO_EXTRACT
  {
    if i == |ls| || s.found == NUMBER_VALUE_TO_EXTRACT then
      if s.found == NUMBER_VALUE_TO_EXTRACT then Read(s) else Rejected(s)
    else
      match Step(ls[i], s, parseDouble)
      case Thrown => Failed(s)
      case Next(n) => ScanIntended(ls, i + 1, n, parseDouble)
  }

  /** A label with no line at all: the loop as written crashes, the intended one rejects it. */
  lemma EmptyLabelCrashes(s: Scan, parseDouble: string -> Option<real>)
    requires s.found == 0
    ensures ScanAsWritten([], 0, s, parseDouble) == Crashed(s)
    ensures ScanIntended([], 0, s, parseDouble) == Rejected(s)
  {
  }

  /**
   * Once six values are found, a read that still returns normally counts no more line:
   * the values at the end of the file are those of the sixth.
   */
  lemma {:induction false} NothingCountedAfterSix(ls: seq<string>, i: nat, s: Scan, parseDouble: string -> Option<real>)
    requires i <= |ls| && s.found == NUMBER_VALUE_TO_EXTRACT
    requires ScanAsWritten(ls, i, s, parseDouble).Read?
    decreases |ls| - i
    ensures Extracted(ScanAsWritten(ls, i, s, parseDouble).scan) == Extracted(s)
  {
    if i < |ls| {
      var n := Step(ls[i], s, parseDouble).scan;
      assert n.found == NUMBER_VALUE_TO_EXTRACT;
      NothingCountedAfterSix(ls, i + 1, n, parseDouble);
    }
  }

  /**
   * Whenever the loop as written returns normally, the intended loop returns the same
   * values: the two differ only on labels the written loop does not read.
   */
  lemma {:induction false} AsWrittenReadAgreesWithIntended(ls: seq<string>, i: nat, s: Scan,
                                                           parseDouble: string -> Option<real>)
    requires i <= |ls| && s.found <= NUMBER_VALUE_TO_EXTRACT
    requires ScanAsWritten(ls, i, s, parseDouble).Read?
    decreases |ls| - i
    ensures ScanIntended(ls, i, s, parseDouble).Read?
    ensures Extracted(ScanIntended(ls, i, s, parseDouble).scan) == Extracted(ScanAsWritten(ls, i, s, parseDouble).scan)
  {
    if s.found == NUMBER_VALUE_TO_EXTRACT {
      NothingCountedAfterSix(ls, i, s, parseDouble);
    } else if i < |ls| {
      AsWrittenReadAgreesWithIntended(ls, i + 1, Step(ls[i], s, parseDouble).scan, parseDouble);
    }
  }

  /**
   * The if/else chain tests FIXED_INSTRUMENT_ELEVATION only on lines without the
   * azimuth key: when no line mentions it, whatever the scan ends with keeps the
   * elevation it started with — on the object, the one of the previous label.
   */
  lemma {:induction false} UnmentionedElevationKept(ls: seq<string>, i: nat, s: Scan,
                                                    parseDouble: string -> Option<real>)
    requires i <= |ls|
    requires forall k :: i <= k < |ls| ==> !Contains(ls[k], FIXED_INSTRUMENT_ELEVATION)
    decreases |ls| - i
    ensures ScanAsWritten(ls, i, s, parseDouble).scan.elevation == s.elevation
  {
    if i < |ls| {
      var r := Step(ls[i], s, parseDouble);
      if r.Next? {
        assert BranchOf(ls[i], s.imageRequestGroup) != Elevation;
        UnmentionedElevationKept(ls, i + 1, r.scan, parseDouble);
      }
    }
  }

  /**
   * Outside an IMAGE_REQUEST_PARMS group no line takes the LINES or LINE_SAMPLES
   * branch, so the image request keeps its values; inside it, a line naming LINES
   * (and neither instrument key, nor starting with GROUP) records the height.
   */
  lemma RequestSizeOnlyInRequestGroup(t: string, s: Scan, parseDouble: string -> Option<real>)
    ensures !s.imageRequestGroup ==> BranchOf(t, false) != Lines && BranchOf(t, false) != LineSamples
    ensures !s.imageRequestGroup && Step(t, s, parseDouble).Next? ==>
              Step(t, s, parseDouble).scan.samples == s.samples && Step(t, s, parseDouble).scan.lines == s.lines
    ensures s.imageRequestGroup && Contains(t, LINES) && !StartsWith(t, GROUP)
            && !Contains(t, FIXED_INSTRUMENT_AZIMUTH) && !Contains(t, FIXED_INSTRUMENT_ELEVATION)
            && CountValue(t).Some?
            ==> Step(t, s, parseDouble) == Next(s.(lines := CountValue(t).value, found := s.found + 1))
  {
    if !s.imageRequestGroup {
      assert BranchOf(t, s.imageRequestGroup) != Lines && BranchOf(t, s.imageRequestGroup) != LineSamples;
    }
  }

  /**
   * A GROUP line (without either instrument key) sets the flag to whether it names
   * IMAGE_REQUEST_PARMS; every other line leaves it as it was, so the flag outlives
   * END_GROUP until the next GROUP line.
   */
  lemma GroupLineSetsFlag(t: string, s: Scan, parseDouble: string -> Option<real>)
    ensures StartsWith(t, GROUP) && !Contains(t, FIXED_INSTRUMENT_AZIMUTH) && !Contains(t, FIXED_INSTRUMENT_ELEVATION)
            ==> Step(t, s, parseDouble) == Next(s.(imageRequestGroup := Contains(t, IMAGE_REQUEST_PARMS)))
    ensures !StartsWith(t, GROUP) && Step(t, s, parseDouble).Next? ==>
              Step(t, s, parseDouble).scan.imageRequestGroup == s.imageRequestGroup
  {
    if StartsWith(t, GROUP) && !Contains(t, FIXED_INSTRUMENT_AZIMUTH) && !Contains(t, FIXED_INSTRUMENT_ELEVATION) {
      assert BranchOf(t, s.imageRequestGroup) == Group;
    }
    if !StartsWith(t, GROUP) {
      assert BranchOf(t, s.imageRequestGroup) != Group;
    }
  }

  class MarsHips {
    /** [azimuth, elevation] in radians. */
    const horizontalCoordinates: array<Option<real>>
    /** [FOV along azimuth, FOV along elevation] in radians. */
    const fov: array<Option<real>>
    /** [LINE_SAMPLES, LINES]. */
    const imageRequest: array<int>

    predicate Valid()
      reads this
    {
      horizontalCoordinates.Length == 2 && fov.Length == 2 && imageRequest.Length == 2
      && horizontalCoordinates != fov
    }

    /** The arrays hold the values of `s`. */
    predicate Holds(s: Scan)
      requires Valid()
      reads this, horizontalCoordinates, fov, imageRequest
    {
      horizontalCoordinates[0] == s.azimuth && horizontalCoordinates[1] == s.elevation
      && imageRequest[0] == s.samples && imageRequest[1] == s.lines
      && fov[0] == s.horizontalFov && fov[1] == s.verticalFov
    }

    /** The reader's state with the given counter and flag and the arrays' values. */
    function Scanned(found: nat, imageRequestGroup: bool): Scan
      requires Valid()
      reads this, horizontalCoordinates, fov, imageRequest
    {
      Scan(found, imageRequestGroup, horizontalCoordinates[0], horizontalCoordinates[1],
           imageRequest[0], imageRequest[1], fov[0], fov[1])
    }

    /** The arrays start as NaN, NaN and 0, 0. */
    constructor ()
      ensures Valid()
      ensures fresh(horizontalCoordinates) && fresh(fov) && fresh(imageRequest)
      ensures Holds(Scan(0, false, None, None, 0, 0, None, None))
    {
      horizontalCoordinates := new Option<real>[2](_ => None);
      fov := new Option<real>[2](_ => None);
      imageRequest := new int[2](_ => 0);
    }

    /** The loop body on a trimmed line, writing the array element of the value it finds. */
    method ReadLine(trimmedLine: string, found: nat, isImageRequestGroup: bool, parseDouble: string -> Option<real>)
      returns (step: LineStep)
      requires Valid()
      modifies horizontalCoordinates, fov, imageRequest
      ensures step == Step(trimmedLine, old(Scanned(found, isImageRequestGroup)), parseDouble)
      ensures step.Next? ==> Holds(step.scan) && Scanned(step.scan.found, step.scan.imageRequestGroup) == step.scan
      ensures step.Thrown? ==> unchanged(horizontalCoordinates, fov, imageRequest)
    {
      var s := Scanned(found, isImageRequestGroup);
      var t := trimmedLine;
      match BranchOf(t, isImageRequestGroup)
      case Azimuth =>
        var a := AngleValue(t, parseDouble);
        if a.None? { return Thrown; }
        horizontalCoordinates[0] := a;
        step := Next(s.(azimuth := a, found := found + 1));
      case Elevation =>
        var a := AngleValue(t, parseDouble);
        if a.None? { return Thrown; }
        horizontalCoordinates[1] := a;
        step := Next(s.(elevation := a, found := found + 1));
      case Group =>
        step := Next(s.(imageRequestGroup := Contains(t, IMAGE_REQUEST_PARMS)));
      case Lines =>
        var n := CountValue(t);
        if n.None? { return Thrown; }
        imageRequest[1] := n.value;
        step := Next(s.(lines := n.value, found := found + 1));
      case LineSamples =>
        var n := CountValue(t);
        if n.None? { return Thrown; }
        imageRequest[0] := n.value;
        step := Next(s.(samples := n.value, found := found + 1));
      case HorizontalFov =>
        var a := AngleValue(t, parseDouble);
        if a.None? { return Thrown; }
        fov[0] := a;
        step := Next(s.(horizontalFov := a, found := found + 1));
      case VerticalFov =>
        var a := AngleValue(t, parseDouble);
        if a.None? { return Thrown; }
        fov[1] := a;
        step := Next(s.(verticalFov := a, found := found + 1));
      case Other =>
        step := Next(s);
    }

    /**
     * readMetadata(filename): the label is the file named by the image's path with
     * "png" replaced by "LBL"; the loop as written runs on its lines, starting from
     * the values the arrays already hold.
     */
    method ReadMetadata(filename: string, files: map<string, seq<string>>, parseDouble: string -> Option<real>)
      returns (outcome: Outcome)
      requires Valid()
      modifies horizontalCoordinates, fov, imageRequest
      ensures MastPds.LabelPath(filename) !in files ==>
                outcome == NotFound && unchanged(horizontalCoordinates, fov, imageRequest)
      ensures MastPds.LabelPath(filename) in files ==>
                outcome == ScanAsWritten(TrimLines(files[MastPds.LabelPath(filename)]), 0, old(Scanned(0, false)), parseDouble)
      ensures !outcome.NotFound? ==> Holds(outcome.scan)
    {
      var lblFile := MastPds.LabelPath(filename);
      if lblFile !in files {
        return NotFound;
      }
      var ls := files[lblFile];
      ghost var ts := TrimLines(ls);
      var found: nat := 0;
      var isImageRequestGroup := false;
      ghost var start := Scanned(0, false);
      var i := 0;
      while i < |ls| || found != NUMBER_VALUE_TO_EXTRACT
        invariant i <= |ls|
        invariant ScanAsWritten(ts, 0, start, parseDouble) == ScanAsWritten(ts, i, Scanned(found, isImageRequestGroup), parseDouble)
        decreases |ls| - i
      {
        if i == |ls| {
          outcome := Crashed(Scanned(found, isImageRequestGroup));
          return;
        }
        var trimmedLine := Trim(ls[i]);
        var step := ReadLine(trimmedLine, found, isImageRequestGroup, parseDouble);
        if step.Thrown? {
          outcome := Failed(Scanned(found, isImageRequestGroup));
          return;
        }
        found, isImageRequestGroup := step.scan.found, step.scan.imageRequestGroup;
        i := i + 1;
      }
      var scan := Scanned(found, isImageRequestGroup);
      if found != NUMBER_VALUE_TO_EXTRACT {
        outcome := Rejected(scan);
        return;
      }
      outcome := Read(scan);
    }
  }
}
