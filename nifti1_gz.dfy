/**
 * The compressed NIfTI-1.1 (`.nii.gz`) image format handler: the checks a
 * header must pass before an image of this format is created, the axis
 * layout imposed on it, and the file entry that `read` and `create` attach.
 * Decoding and encoding of the 352-byte header itself and the gzip I/O are
 * not part of this model.
 */
module NIfTI1GZ {

  const SUFFIX: string := ".nii.gz"
  /** Size of the NIfTI-1 header plus its 4-byte extension flag: where voxel data starts in a created file. */
  const HEADER_SIZE: nat := 352
  const LEFT_TO_RIGHT: string := "left->right"
  const POSTERIOR_TO_ANTERIOR: string := "posterior->anterior"
  const INFERIOR_TO_SUPERIOR: string := "inferior->superior"
  const MILLIMETERS: string := "mm"

  predicate HasSuffix(s: string, suffix: string)
  {
    |suffix| <= |s| && s[|s| - |suffix|..] == suffix
  }

  datatype Axis = Axis(dim: int, order: int, forward: bool, description: string, units: string)

  /** The axis a header gains when its axis count grows. */
  const BLANK_AXIS: Axis := Axis(0, 0, true, "", "")

  datatype FileEntry = FileEntry(name: string, offset: nat)

  /** The I/O handler attached to a header: `Handler::GZ (H, header_size, is_new)`. */
  datatype Handler = NoHandler | GZ(headerSize: nat, isNew: bool)

  datatype FormatError =
    | TooFewDimensions    // fewer than 3 axes requested
    | TooManyDimensions   // more than 8 axes requested
    | CannotStoreMoreThan7 // create with more than 7 axes

  datatype CheckResult = NotThisFormat | Accepted | Rejected(error: FormatError)

  /** `H.axes.ndim() = n`: keeps the first n axes and appends blank ones. */
  function Resized(axes: seq<Axis>, n: nat): (r: seq<Axis>)
    ensures |r| == n
    ensures forall i :: 0 <= i < n ==> r[i] == if i < |axes| then axes[i] else BLANK_AXIS
  {
    if n <= |axes| then axes[..n] else axes + seq(n - |axes|, _ => BLANK_AXIS)
  }

  /** Axis i after the loop of `check`: dimension at least 1, stored in order, forward. */
  function LoopAxis(a: Axis, i: nat): Axis
  {
    a.(dim := if a.dim < 1 then 1 else a.dim, order := i, forward := true)
  }

  /** The axes `check` leaves in a header for a request of n axes (3 <= n). */
  function CheckedAxes(axes: seq<Axis>, n: nat): (r: seq<Axis>)
    requires n >= 3
    ensures |r| == n
  {
    var looped := seq(n, i requires 0 <= i < n => LoopAxis(Resized(axes, n)[i], i));
    looped[0 := looped[0].(description := LEFT_TO_RIGHT, units := MILLIMETERS)]
          [1 := looped[1].(description := INFERIOR_TO_SUPERIOR, units := MILLIMETERS)]
  }

  class Header {
    var name: string
    var axes: seq<Axis>
    var files: seq<FileEntry>
    var handler: Handler

    constructor (name: string, axes: seq<Axis>)
      ensures this.name == name && this.axes == axes && files == [] && handler == NoHandler
    {
      this.name := name;
      this.axes := axes;
      files := [];
      handler := NoHandler;
    }

    function NDim(): nat
      reads this
    {
      |axes|
    }

    /** `NIfTI_GZ::check`: can an image with numAxes axes be created in this format? */
    method Check(numAxes: int) returns (r: CheckResult)
      modifies this`axes
      ensures name == old(name) && files == old(files) && handler == old(handler)
      ensures !HasSuffix(name, SUFFIX) ==> r == NotThisFormat && axes == old(axes)
      ensures HasSuffix(name, SUFFIX) && numAxes < 3 ==> r == Rejected(TooFewDimensions) && axes == old(axes)
      ensures HasSuffix(name, SUFFIX) && numAxes > 8 ==> r == Rejected(TooManyDimensions) && axes == old(axes)
      ensures HasSuffix(name, SUFFIX) && 3 <= numAxes <= 8 ==> r == Accepted && axes == CheckedAxes(old(axes), numAxes)
    {
      if !HasSuffix(name, SUFFIX) {
        return NotThisFormat;
      }
      if numAxes < 3 {
        return Rejected(TooFewDimensions);
      }
      if numAxes > 8 {
        return Rejected(TooManyDimensions);
      }
      axes := Resized(axes, numAxes);
      ghost var resized := axes;
      var i := 0;
      while i < |axes|
        invariant |axes| == numAxes && 0 <= i <= numAxes
        invariant forall k :: 0 <= k < i ==> axes[k] == LoopAxis(resized[k], k)
        invariant forall k :: i <= k < numAxes ==> axes[k] == resized[k]
      {
        if axes[i].dim < 1 {
          axes := axes[i := axes[i].(dim := 1)];
        }
        axes := axes[i := axes[i].(order := i)];
        axes := axes[i := axes[i].(forward := true)];
        i := i + 1;
      }
      axes := axes[0 := axes[0].(description := LEFT_TO_RIGHT)];
      axes := axes[0 := axes[0].(units := MILLIMETERS)];
      axes := axes[1 := axes[1].(description := POSTERIOR_TO_ANTERIOR)];
      axes := axes[1 := axes[1].(units := MILLIMETERS)];
      axes := axes[1 := axes[1].(description := INFERIOR_TO_SUPERIOR)];
      axes := axes[1 := axes[1].(units := MILLIMETERS)];
      return Accepted;
    }

    /**
     * `NIfTI_GZ::read`: claims a `.nii.gz` file and registers its single data
     * file entry. dataOffset is the voxel offset decoded from the header;
     * the decode, which also sets the axes, is done by code not part of this
     * model, so nothing is said of the axes here.
     */
    method Read(dataOffset: nat) returns (claimed: bool)
      modifies this
      ensures name == old(name)
      ensures claimed <==> HasSuffix(name, SUFFIX)
      ensures !claimed ==> files == old(files) && handler == old(handler)
      ensures claimed ==> files == old(files) + [FileEntry(name, dataOffset)] && handler == GZ(0, false)
    {
      if !HasSuffix(name, SUFFIX) {
        return false;
      }
      handler := GZ(0, false);
      files := files + [FileEntry(name, dataOffset)];
      return true;
    }

    /** `NIfTI_GZ::create`: at most 7 axes; the data follows the 352-byte header. */
    method Create() returns (error: CreateResult)
      modifies this
      ensures name == old(name) && axes == old(axes)
      ensures |axes| > 7 ==> error == CreateFailed(CannotStoreMoreThan7) && files == old(files) && handler == old(handler)
      ensures |axes| <= 7 ==> error == Created && files == old(files) + [FileEntry(name, HEADER_SIZE)] && handler == GZ(HEADER_SIZE, true)
    {
      if NDim() > 7 {
        return CreateFailed(CannotStoreMoreThan7);
      }
      handler := GZ(HEADER_SIZE, true);
      files := files + [FileEntry(name, HEADER_SIZE)];
      return Created;
    }
  }

  datatype CreateResult = Created | CreateFailed(error: FormatError)

  /** The axis count after `check` is the requested one, and every dimension is at least 1. */
  lemma CheckedDimensions(axes: seq<Axis>, n: nat, i: nat)
    requires 3 <= n <= 8 && i < n
    ensures |CheckedAxes(axes, n)| == n
    ensures CheckedAxes(axes, n)[i].dim >= 1
    ensures i < |axes| && axes[i].dim >= 1 ==> CheckedAxes(axes, n)[i].dim == axes[i].dim
    ensures CheckedAxes(axes, n)[i].order == i && CheckedAxes(axes, n)[i].forward
  {
  }

  /**
   * Axis 0 is left to right in millimetres; axis 1 ends as inferior to
   * superior because the second assignment overwrites the first; axes 2 and
   * beyond keep the description and units they had.
   */
  lemma CheckedDescriptions(axes: seq<Axis>, n: nat)
    requires 3 <= n <= 8
    ensures CheckedAxes(axes, n)[0].description == LEFT_TO_RIGHT && CheckedAxes(axes, n)[0].units == MILLIMETERS
    ensures CheckedAxes(axes, n)[1].description == INFERIOR_TO_SUPERIOR && CheckedAxes(axes, n)[1].units == MILLIMETERS
    ensures forall i :: 2 <= i < n ==>
      CheckedAxes(axes, n)[i].description == Resized(axes, n)[i].description &&
      CheckedAxes(axes, n)[i].units == Resized(axes, n)[i].units
  {
  }

  /** Checking a header a second time for the same axis count changes nothing. */
  lemma CheckIdempotent(axes: seq<Axis>, n: nat)
    requires 3 <= n <= 8
    ensures CheckedAxes(CheckedAxes(axes, n), n) == CheckedAxes(axes, n)
  {
    var once := CheckedAxes(axes, n);
    var twice := CheckedAxes(once, n);
    forall i | 0 <= i < n
      ensures twice[i] == once[i]
    {
    }
  }

  /**
   * The layout `check` evidently means to impose: the three spatial axes
   * described as left to right, posterior to anterior and inferior to
   * superior, all in millimetres.
   */
  function IntendedAxes(axes: seq<Axis>, n: nat): (r: seq<Axis>)
    requires n >= 3
    ensures |r| == n
  {
    var looped := seq(n, i requires 0 <= i < n => LoopAxis(Resized(axes, n)[i], i));
    looped[0 := looped[0].(description := LEFT_TO_RIGHT, units := MILLIMETERS)]
          [1 := looped[1].(description := POSTERIOR_TO_ANTERIOR, units := MILLIMETERS)]
          [2 := looped[2].(description := INFERIOR_TO_SUPERIOR, units := MILLIMETERS)]
  }

  /**
   * The intended layout gives each spatial axis its own anatomical direction
   * in millimetres and leaves the other axes as the loop left them; dims,
   * order and direction are those of the code as written.
   */
  lemma IntendedDescriptions(axes: seq<Axis>, n: nat)
    requires 3 <= n <= 8
    ensures IntendedAxes(axes, n)[0].description == LEFT_TO_RIGHT
    ensures IntendedAxes(axes, n)[1].description == POSTERIOR_TO_ANTERIOR
    ensures IntendedAxes(axes, n)[2].description == INFERIOR_TO_SUPERIOR
    ensures forall i :: 0 <= i < 3 ==> IntendedAxes(axes, n)[i].units == MILLIMETERS
    ensures forall i :: 0 <= i < n ==>
      IntendedAxes(axes, n)[i].dim == CheckedAxes(axes, n)[i].dim &&
      IntendedAxes(axes, n)[i].order == i && IntendedAxes(axes, n)[i].forward
    ensures forall i :: 3 <= i < n ==> IntendedAxes(axes, n)[i] == CheckedAxes(axes, n)[i]
  {
  }

  /**
   * For a header with no axes, `check` as written leaves axis 1 described as
   * inferior to superior and axis 2 with no description or units at all.
   */
  lemma CheckMislabelsAxes()
    ensures CheckedAxes([], 3)[1].description == INFERIOR_TO_SUPERIOR
    ensures CheckedAxes([], 3)[2].description == "" && CheckedAxes([], 3)[2].units == ""
    ensures CheckedAxes([], 3) != IntendedAxes([], 3)
  {
    CheckedDescriptions([], 3);
    assert Resized([], 3)[2] == BLANK_AXIS;
    assert IntendedAxes([], 3)[1].description == POSTERIOR_TO_ANTERIOR;
  }

  /** `check` accepts 8 axes but `create` refuses more than 7: such a header cannot be written. */
  method CheckThenCreateEightAxes(h: Header) returns (created: CreateResult)
    requires HasSuffix(h.name, SUFFIX)
    modifies h
    ensures created == CreateFailed(CannotStoreMoreThan7)
  {
    var checked := h.Check(8);
    assert checked == Accepted;
    created := h.Create();
  }
}
