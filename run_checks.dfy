/**
 * The option defaults and the input checks of fixelcfestats' `run()`: the
 * TFCE and smoothing parameters with their defaults, the agreement of the
 * design and contrast matrices with the subject list, and the streamline
 * count read from the track file's properties.
 */
module RunChecks {

  import opened Wrappers
  import Normalise

  /**
   * The values given on the command line, if any. The argument parser has
   * already held each one to the range its option declares.
   */
  datatype CommandOptions = CommandOptions(
    dh: Option<real>, tfceH: Option<real>, tfceE: Option<real>, tfceC: Option<real>,
    nperms: Option<int>, angle: Option<real>, connectivity: Option<real>, smooth: Option<real>)

  /** The ranges the option declarations give. */
  ghost predicate InRange(o: CommandOptions)
  {
    (o.nperms.Some? ==> 1 <= o.nperms.value <= 100000) &&
    (o.dh.Some? ==> 0.001 <= o.dh.value <= 100000.0) &&
    (o.tfceE.Some? ==> 0.0 <= o.tfceE.value <= 100000.0) &&
    (o.tfceH.Some? ==> 0.0 <= o.tfceH.value <= 100000.0) &&
    (o.tfceC.Some? ==> 0.0 <= o.tfceC.value <= 100000.0) &&
    (o.angle.Some? ==> 0.0 <= o.angle.value <= 90.0) &&
    (o.connectivity.Some? ==> 0.001 <= o.connectivity.value <= 1.0) &&
    (o.smooth.Some? ==> 0.0 <= o.smooth.value <= 200.0)
  }

  datatype RunSettings = RunSettings(
    dh: real, tfceH: real, tfceE: real, tfceC: real, numPerms: int,
    angularThreshold: real, connectivityThreshold: real, smoothStdDev: real)

  /** The FWHM-to-standard-deviation divisor 2 sqrt(2 ln 2), as the source writes it. */
  const FwhmToStdDev: real := 2.3548

  function OrDefault<T>(o: Option<T>, default: T): T
  {
    if o.Some? then o.value else default
  }

  /**
   * The settings `run()` reads. An absent option takes its default: dh 0.1,
   * tfce_H 2.0, tfce_E 1.0, tfce_C 0.5, 5000 permutations, 30 degrees, a
   * connectivity threshold of 1% and a 10 mm FWHM. The standard deviation is
   * the FWHM divided by 2.3548, so smoothing is on exactly when the FWHM is
   * positive, and the options' ranges keep every setting within bounds the
   * later passes rely on.
   */
  function ReadSettings(o: CommandOptions): (r: RunSettings)
    requires InRange(o)
    ensures r.smoothStdDev > 0.0 <==> OrDefault(o.smooth, 10.0) > 0.0
    ensures r.smoothStdDev * FwhmToStdDev == OrDefault(o.smooth, 10.0)
    ensures 0.0 <= r.angularThreshold <= 90.0
    ensures 0.001 <= r.connectivityThreshold <= 1.0
    ensures r.dh > 0.0 && r.numPerms >= 1 && r.tfceC >= 0.0
    ensures r.dh == if o.dh.Some? then o.dh.value else 0.1
    ensures r.tfceH == if o.tfceH.Some? then o.tfceH.value else 2.0
    ensures r.tfceE == if o.tfceE.Some? then o.tfceE.value else 1.0
    ensures r.tfceC == if o.tfceC.Some? then o.tfceC.value else 0.5
    ensures r.numPerms == if o.nperms.Some? then o.nperms.value else 5000
    ensures r.angularThreshold == if o.angle.Some? then o.angle.value else 30.0
    ensures r.connectivityThreshold == if o.connectivity.Some? then o.connectivity.value else 0.01
    ensures o.smooth.None? ==> r.smoothStdDev == 10.0 / FwhmToStdDev
    ensures o == CommandOptions(None, None, None, None, None, None, None, None) ==>
      r == RunSettings(0.1, 2.0, 1.0, 0.5, 5000, 30.0, 0.01, 10.0 / FwhmToStdDev)
  {
    RunSettings(
      OrDefault(o.dh, 0.1), OrDefault(o.tfceH, 2.0), OrDefault(o.tfceE, 1.0), OrDefault(o.tfceC, 0.5),
      OrDefault(o.nperms, 5000), OrDefault(o.angle, 30.0), OrDefault(o.connectivity, 0.01),
      OrDefault(o.smooth, 10.0) / FwhmToStdDev)
  }

  /** The parameters of the normalisation pass. */
  function NormaliseSettings(r: RunSettings): Normalise.Settings
  {
    Normalise.Settings(r.connectivityThreshold, r.tfceC, r.smoothStdDev)
  }

  /** The rows and columns of a matrix loaded from a text file. */
  datatype Shape = Shape(rows: nat, columns: nat)

  /**
   * The checks on the design and contrast matrices: the design needs one
   * row per listed subject, the contrast no more columns than the design;
   * the contrast is then resized to the design's column count.
   */
  function CheckDesign(subjects: nat, design: Shape, contrast: Shape): (r: Result<Shape, string>)
    ensures r.Ok? <==> design.rows == subjects && contrast.columns <= design.columns
    ensures design.rows != subjects ==> r == Err("number of subjects does not match number of rows in design matrix")
    ensures design.rows == subjects && contrast.columns > design.columns ==> r == Err("too many contrasts for design matrix")
    ensures r.Ok? ==> r.value == Shape(contrast.rows, design.columns)
  {
    if design.rows != subjects then Err("number of subjects does not match number of rows in design matrix")
    else if contrast.columns > design.columns then Err("too many contrasts for design matrix")
    else Ok(contrast.(columns := design.columns))
  }

  /** An `int` of the source: 32 bits, two's complement. */
  newtype Int32 = x: int | -0x8000_0000 <= x < 0x8000_0000

  /** The conversion of an `int` to `size_t` (64 bits), which wraps negative values. */
  function ToSizeT(v: Int32): (r: nat)
    ensures r < 0x1_0000_0000_0000_0000
    ensures v >= 0 ==> r == v as int
    ensures v < 0 ==> r >= 0x8000_0000_0000_0000
  {
    (v as int) % 0x1_0000_0000_0000_0000
  }

  /** The outcome of reading the streamline count: the count and whether to warn that it is low. */
  datatype TrackCount = TrackCount(tracks: nat, fewTracks: bool)

  /** Fewer streamlines than this draw the robustness warning. */
  const RobustTrackCount: nat := 1000000

  /**
   * `num_tracks`: the "count" property as an int, 0 when the property is
   * empty, converted to size_t. Zero stops the command; fewer than a million
   * draw a warning. A negative count wraps to a huge size_t and passes.
   */
  function ReadTrackCount(count: Option<Int32>): (r: Result<TrackCount, string>)
    ensures r.Err? <==> count.None? || count.value == 0
    ensures r.Err? ==> r.error == "no tracks found in input file"
    ensures r.Ok? ==> r.value.tracks > 0 && (r.value.fewTracks <==> 0 < count.value < 1000000)
    ensures r.Ok? && count.value > 0 ==> r.value.tracks == count.value as int
  {
    var numTracks := if count.None? then 0 else ToSizeT(count.value);
    if numTracks == 0 then Err("no tracks found in input file")
    else Ok(TrackCount(numTracks, numTracks < RobustTrackCount))
  }

  /** A negative "count" property is not refused: it becomes a count of more than 2^63. */
  lemma NegativeCountPasses()
    ensures ReadTrackCount(Some(-1)).Ok?
    ensures ReadTrackCount(Some(-1)).value == TrackCount(0xFFFF_FFFF_FFFF_FFFF, false)
  {
  }
}
