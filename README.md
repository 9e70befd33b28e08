# MRtrix3 core components in Dafny

This project models four pieces of MRtrix3.

- **fixelcfestats** (`cmd/fixelcfestats.cpp`) runs connectivity-based fixel enhancement. The model covers:
  - the option defaults and input checks of `run()`;
  - the fixel index built from the fixel mask;
  - `TrackProcessor`, which assigns each streamline tangent to its nearest fixel, counts the visits into the fixel track-density image (TDI) and counts every ordered pair of fixels on a streamline into the connectivity matrix;
  - the normalisation and thresholding of that matrix, and the smoothing weights drawn from it;
  - the normalisation of those weights;
  - the matching of each subject's fixels to the mask's fixels, and the smoothing of the matched values;
  - `write_fixel_output`.
- **The DICOM data-element reader** (`core/file/dicom/element.cpp`). The reader holds a mapped file and walks it element by element. The model covers:
  - opening a file and detecting its encoding (`set`, `set_explicit_encoding`);
  - reading a tag (`read_GR_EL`);
  - decoding an element header in explicit or implicit VR and either byte order;
  - moving to the next element, and tracking nested sequences;
  - switching the transfer syntax;
  - classifying a VR (`type`);
  - decoding integer, unsigned and string values (`get_int`, `get_uint`, `get_string`).
- **The compressed NIfTI-1.1 format handler** (`lib/image/format/nifti1_gz.cpp`). The model covers `check`, and the suffix and dimension guards of `read` and `create`.
- **The stride renormalisation** of the `ants` algorithm of dwi2mask (`lib/mrtrix3/dwi2mask/ants.py`, lines 70-71).

## How the source becomes Dafny

- **TrackProcessor** becomes a class.
  - Its fixel TDI and connectivity matrix are `seq` fields.
  - Its fixel indexer is an `array2`.
  - Its methods are proved to add exactly the visits and pairs of a streamline (`AddVisits`, `AddPairCounts` of `Pairs`).
  - Lemmas then show that these counts keep the relation between the two structures that later division by the TDI relies on.
- **The DICOM `Element`** is a class. Its cursor, byte order, encoding and sequence stack form one `Parser` value.
  - Every phase of `read` is a function on that value, and the class's methods are proved to carry out that function.
  - Thrown exceptions become the `ReadError` datatype. `Message` gives each error's text.
- **The loops of `run()`** become methods with loop invariants, each proved against a function on values:
  - the normalisation loop;
  - the weight normalisation;
  - subject matching and smoothing;
  - the index build;
  - `write_fixel_output`.
- **The NIfTI header** is a class whose `Check` rewrites its axes in a loop.
- **The ANTs stride formula** is a pure function.

Inputs from outside the core are parameters:

- the mathematical functions (`Maths`: `cos`, `exp`, `pow`, `sqrt`);
- the voxel-to-scanner transform;
- the DICOM tag dictionary;
- the string-to-number parsers;
- the mapped file, as a byte sequence;
- the decoded NIfTI data offset.

## Model

| member | source | states |
|---|---|---|
| RunChecks.ReadSettings | cmd/fixelcfestats.cpp:197-236 | Each option given on the command line is used as given, and each absent option takes its default: dh 0.1, tfce_H 2.0, tfce_E 1.0, tfce_C 0.5, 5000 permutations, 30 degrees, connectivity 0.01, smooth 10 mm FWHM. The standard deviation is the FWHM divided by 2.3548, so it is positive exactly when the FWHM is. With the options' ranges, the angle stays within 0-90 and the connectivity threshold within 0.001-1. |
| RunChecks.CheckDesign | cmd/fixelcfestats.cpp:251-260 | The checks pass exactly when the design has one row per subject and the contrast has no more columns than the design. Each failure gives its own message, the subject check first. On success, the contrast takes the design's column count. |
| RunChecks.ToSizeT | cmd/fixelcfestats.cpp:306 | The `int`-to-`size_t` conversion keeps non-negative values and wraps negative ones to at least 2^63. |
| RunChecks.ReadTrackCount | cmd/fixelcfestats.cpp:306-310 | An empty or zero count fails with "no tracks found in input file". Otherwise the count is positive, and the low-count warning is raised exactly when 0 < count < 1000000. |
| RunChecks.NegativeCountPasses | cmd/fixelcfestats.cpp:306-308 | A count of -1 is not refused: it becomes 2^64-1 tracks, with no warning. |
| FixelIndex.BuildIndex | cmd/fixelcfestats.cpp:272-293 | The indexer gives each mask voxel its first fixel index and fixel count, so no -1 written by the clearing loop survives. The direction list is the flattened list of the mask's fixel directions. Each voxel adds one copy of its scanner position per fixel to the position list. |
| FixelIndex.ClearIndexer | cmd/fixelcfestats.cpp:272-274 | Every entry of the indexer becomes -1. |
| FixelIndex.AppendFixels | cmd/fixelcfestats.cpp:284-292 | One voxel appends exactly its fixel directions, and one copy of its position per fixel, and counts its fixels. |
| FixelIndex.IndexedFixel | cmd/fixelcfestats.cpp:281-293 | Fixel f of voxel v sits at global index offset(v)+f, which holds that fixel's direction and the voxel's position. |
| FixelIndex.SharedPosition | cmd/fixelcfestats.cpp:287-289 | All fixels of one voxel share the same position. |
| FixelIndex.RangesPartition | cmd/fixelcfestats.cpp:282-292 | The voxels' index ranges start at 0 and are contiguous: each ends where the next begins, and the last ends at the fixel total. |
| FixelIndex.WriteFixelOutput | cmd/fixelcfestats.cpp:172-190 | The output has the mask's shape. Each fixel keeps the mask's direction and size and takes its value from the data at its global index. |
| FixelIndex.OutputRoundTrip | cmd/fixelcfestats.cpp:179-189 | Reading the output's values back in index order gives the first data values, one per fixel. The output's directions are the mask's. |
| FixelGeometry.Nearest | cmd/fixelcfestats.cpp:135-145 | The scan returns -1 and 0 exactly when every candidate is orthogonal. Otherwise it returns the first candidate with the largest absolute dot product, and that product. |
| FixelGeometry.ClosestFixel | cmd/fixelcfestats.cpp:135-145 | The loop with its running maximum computes `Nearest`. |
| FixelGeometry.Match | cmd/fixelcfestats.cpp:139-147 | A fixel is matched exactly when some candidate's absolute dot product exceeds the threshold. The match is within range, above the threshold and maximal, and every earlier candidate is strictly less aligned, so a tie goes to the first fixel. |
| FixelGeometry.NearestNeg | cmd/fixelcfestats.cpp:140 | Reversing the tangent does not change the nearest fixel: fixel directions are unsigned. |
| FixelGeometry.MatchNeg | cmd/fixelcfestats.cpp:137-147 | Matching a normalised tangent does not depend on its sign. |
| FixelGeometry.NoMatchWhenOrthogonal | cmd/fixelcfestats.cpp:135-146 | A tangent orthogonal to every fixel of its voxel is discarded. |
| FixelGeometry.TieGoesToFirst | cmd/fixelcfestats.cpp:141 | The strict `>` keeps the first of two equally close fixels. |
| TrackProcessing.TrackProcessor.constructor | cmd/fixelcfestats.cpp:110-122 | The processor starts with a zero TDI, empty connectivity rows and the cosine of the angular threshold. |
| TrackProcessing.TrackProcessor.Assigned | cmd/fixelcfestats.cpp:129-147 | A tangent in a voxel outside the mask is not assigned. An assigned tangent goes to a fixel index within the direction list. |
| TrackProcessing.TrackProcessor.AssignDixel | cmd/fixelcfestats.cpp:128-147 | Assigning one tangent by a scan of the voxel's fixels gives `Assigned`. |
| TrackProcessing.TrackProcessor.AssignAll | cmd/fixelcfestats.cpp:127-151 | The loop over tangents returns the assigned fixels in order, and adds one visit for each to the unbounded TDI (the as-written `uint16_t` value follows by `TrackProcessing.Uint16IsUnboundedModulo`). |
| TrackProcessing.TrackProcessor.PairCounts | cmd/fixelcfestats.cpp:153-158 | The double loop adds to the matrix exactly the multiset `Pairs` of the tract: both orders of every pair of positions i < j. |
| TrackProcessing.TrackProcessor.Process | cmd/fixelcfestats.cpp:124-161 | One streamline adds its fixels' visits to the unbounded TDI and its pairs to the connectivity matrix, and nothing else changes. |
| TrackProcessing.TrackProcessor.ProcessAll | cmd/fixelcfestats.cpp:311-322 | Processing every streamline adds their visits, counted without bound, and their pairs in total, and keeps the connectivity invariant (keys in range, a positive TDI for every non-empty row, symmetry) the normalisation requires. On a new processor, whose state `TrackProcessing.InitialInvariant` covers, the invariant therefore holds after all streamlines. |
| TrackProcessing.TrackProcessor.ProcessNext | cmd/fixelcfestats.cpp:311-322 | One turn of the queue: the streamline's visits and pairs are added after those of the streamlines before it, and the invariant is kept. |
| TrackProcessing.TrackProcessor.Tracts | cmd/fixelcfestats.cpp:311-322 | One fixel list per streamline, each the list that streamline is assigned. |
| TrackProcessing.VisitsCount | cmd/fixelcfestats.cpp:148 | A fixel's TDI entry grows by the number of times the tract visits it. |
| TrackProcessing.AddVisitsAppend | cmd/fixelcfestats.cpp:148 | Visits of consecutive tracts add up. |
| TrackProcessing.PairsCount | cmd/fixelcfestats.cpp:153-158 | A fixel pair a != b is counted count(a)·count(b) times, and (a, a) count(a)·(count(a)-1) times. |
| TrackProcessing.PairsSymmetric | cmd/fixelcfestats.cpp:155-156 | The pair counts are symmetric. |
| TrackProcessing.PairsSize | cmd/fixelcfestats.cpp:153-158 | A tract of n fixels contributes n·(n-1) pair counts. |
| TrackProcessing.PairsMembers | cmd/fixelcfestats.cpp:153-158 | A counted pair joins two fixels of the tract. A self pair needs a fixel visited at least twice. |
| TrackProcessing.RevisitedDiagonal | cmd/fixelcfestats.cpp:153-158 | A fixel visited twice by one streamline gains a self count of 2. |
| TrackProcessing.AddPairCountsUnion | cmd/fixelcfestats.cpp:153-158 | Adding two sets of pairs in turn is adding their union. |
| TrackProcessing.GetAddRow | cmd/fixelcfestats.cpp:155-156 | A matrix entry grows by exactly its pair's multiplicity, and is present exactly when it was before or the pair occurs. |
| TrackProcessing.InitialInvariant | cmd/fixelcfestats.cpp:299-300 | The empty matrix and zero TDI satisfy the invariant: every stored entry's fixel has a positive TDI. |
| TrackProcessing.StreamlineKeepsInvariant | cmd/fixelcfestats.cpp:124-161 | Each streamline keeps the invariant, with the TDI counted without bound. |
| TrackProcessing.UnboundedTdiKeepsInvariant | cmd/fixelcfestats.cpp:299-300 | With the corrected TDI, any sequence of streamlines processed from the empty start (the TDI and matrix `ProcessAll` gives a new processor) keeps the invariant, so every non-empty row has a positive TDI to divide by at line 340. |
| TrackProcessing.AppendTract | cmd/fixelcfestats.cpp:311-322 | One more streamline adds its visits and pairs to the state the earlier ones left, and keeps the invariant. |
| TrackProcessing.AddVisitsUint16 | cmd/fixelcfestats.cpp:300 | The `uint16_t` TDI as written: the visits added modulo 65536. |
| TrackProcessing.Uint16IsUnboundedModulo | cmd/fixelcfestats.cpp:300 | A `uint16_t` TDI entry, starting below 65536, equals the processor's unbounded count modulo 65536 after any visits. |
| TrackProcessing.VisitsCountUint16 | cmd/fixelcfestats.cpp:148 | With the `uint16_t` TDI of line 300, a TDI entry holds the visit count modulo 65536. |
| TrackProcessing.Uint16TdiWraps | cmd/fixelcfestats.cpp:300 | 65536 visits to one fixel leave its TDI at 0 while its matrix row is non-empty, so the invariant that line 340's division needs fails. |
| TrackProcessing.Uint16TdiWrapsExample | cmd/fixelcfestats.cpp:300 | A concrete streamline of 65536 tangents in one fixel breaks the invariant. |
| Normalise.GaussianConst1 | cmd/fixelcfestats.cpp:330-334 | The Gaussian constant is positive, and 1 when smoothing is off. |
| Normalise.ConnRow | cmd/fixelcfestats.cpp:337-359 | An entry for another fixel survives exactly when its fraction of the TDI reaches the threshold, and then becomes fraction^C. The self entry is always present: it is raised by the same rule if it passed, and set to 1 otherwise. |
| Normalise.WeightRow | cmd/fixelcfestats.cpp:344-360 | With smoothing on, a neighbour gets a weight exactly when it passes the threshold and its Gaussian weight exceeds the threshold. Each neighbour weight is connectivity·gaussian_const1·exp(-d²/gaussian_const2) of line 348. The self weight is that weight when the fixel is its own neighbour and passes both tests, and gaussian_const1 otherwise. With smoothing off, the row is {self: 1}. |
| Normalise.ThresholdStep | cmd/fixelcfestats.cpp:340-353 | One visited entry is either erased or raised to the power C. |
| Normalise.SmoothingStep | cmd/fixelcfestats.cpp:344-351 | One visited entry inserts its Gaussian weight exactly when smoothing is on and both thresholds pass. |
| Normalise.ScanRow | cmd/fixelcfestats.cpp:338-355 | The iteration over a row computes the thresholded row and the partial smoothing weights. |
| Normalise.NormaliseRow | cmd/fixelcfestats.cpp:338-360 | One row's pass computes `ConnRow` and `WeightRow`. |
| Normalise.NormaliseAndThreshold | cmd/fixelcfestats.cpp:326-363 | Every row of the matrix and of the weights is the one `ConnRow` and `WeightRow` give. |
| Normalise.RowSum | cmd/fixelcfestats.cpp:367-369 | The loop sums the row's weights. |
| Normalise.ScaleRow | cmd/fixelcfestats.cpp:370-372 | The loop multiplies every weight by the factor and keeps the keys. |
| Normalise.NormaliseWeights | cmd/fixelcfestats.cpp:365-373 | Every row is divided by its sum. |
| Normalise.NormalisedSumsToOne | cmd/fixelcfestats.cpp:365-373 | A normalised row with a non-zero sum keeps its keys and sums to 1. |
| Normalise.NormalisedRatios | cmd/fixelcfestats.cpp:370-372 | Normalising keeps the ratios between weights. |
| Normalise.WeightsPositive | cmd/fixelcfestats.cpp:344-360 | Every smoothing weight is positive, so the row sum is positive and the division at line 370 is defined. |
| Normalise.NoSmoothingSelfOnly | cmd/fixelcfestats.cpp:328-360 | Without smoothing, each fixel's normalised weights are {self: 1}. |
| Normalise.FractionAboveOne | cmd/fixelcfestats.cpp:340 | A streamline visiting one fixel three times gives a self count of 6 against a TDI of 3. The self "fraction" is then 2, so the self entry is 2^C and not 1. |
| Normalise.RepeatedRow | cmd/fixelcfestats.cpp:153-158 | A streamline that meets only fixel a, n >= 2 times, leaves row a with the single entry a holding n(n-1). |
| SubjectData.DimensionsMatch | cmd/fixelcfestats.cpp:383 | Matching dimensions means the same voxel count. |
| SubjectData.MatchedValue | cmd/fixelcfestats.cpp:394-404 | The value is 0 when no subject fixel exceeds the threshold. Otherwise it is the value of a subject fixel that exceeds the threshold and is closest, and every earlier subject fixel is strictly less aligned, so a tie takes the first fixel's value. |
| SubjectData.SubjectTempAt | cmd/fixelcfestats.cpp:384-405 | The matched value of mask fixel f in voxel v sits at its global index. |
| SubjectData.VoxelRange | cmd/fixelcfestats.cpp:387-393 | Each voxel fills exactly its own index range. |
| SubjectData.MatchSubject | cmd/fixelcfestats.cpp:384-406 | The loop over voxels and fixels builds the subject's matched values. |
| SubjectData.MatchVoxel | cmd/fixelcfestats.cpp:393-405 | One voxel's loop fills its index range and leaves the rest zero. |
| SubjectData.SmoothValue | cmd/fixelcfestats.cpp:410-413 | The loop computes the weighted sum of the matched values. |
| SubjectData.SmoothSubject | cmd/fixelcfestats.cpp:408-415 | The subject's column holds every fixel's smoothed value, and the other columns are unchanged. |
| SubjectData.LoadInputData | cmd/fixelcfestats.cpp:375-418 | The data matrix has one row per fixel and one column per subject. It stops at the first subject whose dimensions differ from the mask's. Otherwise every entry is that subject's smoothed, matched value. |
| SubjectData.SelfWeightKeepsValue | cmd/fixelcfestats.cpp:409-414 | A fixel whose only weight is itself at 1, as line 360 gives without smoothing, keeps its matched value. |
| SubjectData.SmoothedWithinBounds | cmd/fixelcfestats.cpp:409-414 | With non-negative weights summing to 1, as lines 365-373 make them, the smoothed value lies between the smallest and largest matched values. |
| SubjectData.UnmatchedVoxelGivesZero | cmd/fixelcfestats.cpp:394-404 | A mask fixel orthogonal to every subject fixel of its voxel keeps 0. |
| NIfTI1GZ.Header.Check | lib/image/format/nifti1_gz.cpp:58-81 | A name without ".nii.gz" is not claimed, and the header is unchanged. Fewer than 3 or more than 8 axes are refused, with the header unchanged. Otherwise the header's axes become `CheckedAxes`. |
| NIfTI1GZ.CheckedDimensions | lib/image/format/nifti1_gz.cpp:64-69 | After check, there are n axes. Every dimension is at least 1, and one that was already at least 1 is kept. Axis i has order i and is forward. |
| NIfTI1GZ.CheckedDescriptions | lib/image/format/nifti1_gz.cpp:71-78 | Axis 0 is left->right in mm. Axis 1 ends as inferior->superior in mm, because line 77 overwrites line 74. Axes from 2 on keep their description and units. |
| NIfTI1GZ.CheckIdempotent | lib/image/format/nifti1_gz.cpp:58-81 | Checking twice with the same axis count changes nothing more. |
| NIfTI1GZ.CheckMislabelsAxes | lib/image/format/nifti1_gz.cpp:74-78 | On a header without axes, check labels axis 1 inferior->superior and leaves axis 2 unlabelled, unlike the intended layout. |
| NIfTI1GZ.IntendedAxes | lib/image/format/nifti1_gz.cpp:71-78 | The corrected layout keeps the requested axis count. |
| NIfTI1GZ.IntendedDescriptions | lib/image/format/nifti1_gz.cpp:71-78 | In the corrected layout the axes are left->right, posterior->anterior and inferior->superior, all in mm. Dimensions, order and direction are as written, and axes from 3 on are as written. |
| NIfTI1GZ.Header.Read | lib/image/format/nifti1_gz.cpp:37-52 | The file is claimed exactly when the name ends in ".nii.gz". A claimed file gets a GZ handler and exactly one file entry at the data offset; an unclaimed one changes nothing. |
| NIfTI1GZ.Header.Create | lib/image/format/nifti1_gz.cpp:87-100 | More than 7 axes are refused, with nothing changed. Otherwise one file entry at offset 352 and a new GZ handler with a 352-byte header are added. |
| NIfTI1GZ.CheckThenCreateEightAxes | lib/image/format/nifti1_gz.cpp:89-90 | Check accepts 8 axes (line 62), but create then refuses the header. |
| AntsStrides.MinAbs | lib/mrtrix3/dwi2mask/ants.py:71 | The result is the smallest stride magnitude: no larger than any, and equal to one. |
| AntsStrides.Spatial | lib/mrtrix3/dwi2mask/ants.py:70 | The result is the first three strides, or all of them when there are fewer. |
| AntsStrides.Renormalise | lib/mrtrix3/dwi2mask/ants.py:71 | The result has one stride per input stride, so an empty list gives an empty list: `min` is evaluated inside each element's expression and never on no strides. Each stride keeps its sign, is non-zero, and has its magnitude shifted by 1 - min. |
| AntsStrides.SmallestIsOne | lib/mrtrix3/dwi2mask/ants.py:71 | The smallest renormalised magnitude is 1. |
| AntsStrides.GapsPreserved | lib/mrtrix3/dwi2mask/ants.py:71 | Differences between magnitudes, and hence their order, are kept. |
| AntsStrides.Idempotent | lib/mrtrix3/dwi2mask/ants.py:71 | Renormalising twice is renormalising once. |
| AntsStrides.OutputLength | lib/mrtrix3/dwi2mask/ants.py:70-71 | An image with at least three axes yields exactly three strides. |
| DicomVR.TypeOf | core/file/dicom/element.cpp:244-256 | The type is invalid exactly for VR 0, float exactly for FD/FL, int exactly for SL/SS, uint exactly for UL/US and seq exactly for SQ. It is string exactly for the 16 text VRs, AT included, and other for any further VR. |
| DicomElement.Element.constructor | core/file/dicom/element.cpp:25-54 | A new reader has no file, no VR and NULL pointers. |
| DicomElement.Element.Open | core/file/dicom/element.cpp:25-54 | The file becomes the reader's buffer, and its state is the one `OpenSpec` gives. Errors are reported under the same conditions. |
| DicomElement.Element.Set | core/file/dicom/element.cpp:25-81 | Opening then detecting the encoding gives exactly `SetSpec`'s state or error. |
| DicomElement.SetOutcome | core/file/dicom/element.cpp:25-81 | A file under 256 bytes is too small. Otherwise set succeeds exactly when the file has the "DICM" magic, is forced or ends in ".dcm", and its first group is not a byte-swapped 0x0002. On success, the cursor is at byte 132 (with the magic) or 0 (without), no sequence is open, the byte order is little-endian, and the encoding is explicit exactly when bytes 4-5 of the first element name a known VR. |
| DicomElement.Element.SetExplicitEncoding | core/file/dicom/element.cpp:61-81 | The state becomes `ExplicitEncodingSpec`'s. |
| DicomElement.ExplicitEncodingSpec | core/file/dicom/element.cpp:61-81 | The cursor is not moved and no sequence is opened. Encoding is explicit exactly when bytes 4-5 after the cursor name one of the 27 VRs. |
| DicomElement.ReadGrElSpec | core/file/dicom/element.cpp:88-115 | Reading a tag fails exactly when the cursor is NULL, or when a byte-swapped 0x0002 group appears outside a big-endian transfer syntax. It reports the end exactly when fewer than 8 bytes remain. It clears the VR, size and pointers and keeps the sequence stack. A successful read never leaves group 0x0200: a 0x0200 fetched under a big-endian syntax becomes group 0x0002 read little-endian, and any other group is read in the transfer syntax's byte order. |
| DicomElement.Element.ReadGrEl | core/file/dicom/element.cpp:88-115 | The method performs `ReadGrElSpec`'s transition. |
| DicomElement.HeaderLayout | core/file/dicom/element.cpp:127-159 | In explicit layout, OB/OW/OF/SQ/UN/UT have a 4-byte length at +8 and data at +12, and other VRs a 2-byte length at +6 and data at +8. In implicit layout, the VR comes from the dictionary (UN if unknown), with a 4-byte length at +4. A UN VR survives only where the dictionary does not know the tag. |
| DicomElement.Element.DecodeHeader | core/file/dicom/element.cpp:127-159 | The method decodes the header as `HeaderSpec` says. |
| DicomElement.AdvanceSpec | core/file/dicom/element.cpp:162-178 | Moving on fails exactly when a defined length overruns the file. An undefined length becomes 0, except for sequences and items. Sequences and items are entered; other elements are skipped. |
| DicomElement.Element.Advance | core/file/dicom/element.cpp:162-178 | The method performs `AdvanceSpec`'s transition. |
| DicomElement.ParentsSpec | core/file/dicom/element.cpp:182-192 | The innermost sequence is closed when its end is passed, or on a delimitation item. A sequence element opens a new one, with a NULL end for an undefined length. The depth changes by at most one, and nothing else changes. |
| DicomElement.Element.UpdateParents | core/file/dicom/element.cpp:182-192 | The method performs `ParentsSpec`'s transition. |
| DicomElement.SwitchSyntax | core/file/dicom/element.cpp:197-228 | Deflated syntax fails. An unsupported syntax only sets the error flag. Otherwise the byte order is big-endian exactly for explicit big-endian, the encoding is explicit except for implicit little-endian, and nothing else changes. |
| DicomElement.Element.UpdateSyntax | core/file/dicom/element.cpp:197-228 | The method performs `SyntaxSpec`'s transition. |
| DicomElement.Element.Read | core/file/dicom/element.cpp:122-231 | One `read` performs exactly `ReadSpec`'s transition, error or state, and reports whether an element was read. |
| DicomElementLemmas.ExplicitElementRead | core/file/dicom/element.cpp:127-178 | Reading an encoded explicit-VR element returns its tag, VR (or the dictionary's for UN), length and data offset, and the next element's offset. |
| DicomElementLemmas.ImplicitElementRead | core/file/dicom/element.cpp:146-178 | Reading an encoded implicit-VR element returns its tag, length, data at +8, and the dictionary's VR. Items are entered. |
| DicomElementLemmas.MetaGroupInBigEndianFile | core/file/dicom/element.cpp:97-110 | In a big-endian transfer syntax, a little-endian 0x0002 group is read as little-endian. |
| DicomElementLemmas.ReadProgress | core/file/dicom/element.cpp:122-178 | A read element starts at the cursor, and the next offset is at least 8 bytes on. It passes the file's end only for an entered sequence or item. |
| DicomElementLemmas.ReadAtEnd | core/file/dicom/element.cpp:88-125 | `read` reports the end exactly when fewer than 8 bytes remain after a non-NULL cursor. |
| DicomElementLemmas.ValueCompare | core/file/dicom/element.cpp:201-213 | `strncmp` over a value of size n matches exactly when each of its first n bytes, up to the literal's NUL, equals the literal. |
| DicomElementLemmas.ExplicitLittleEndianSelected | core/file/dicom/element.cpp:201-204 | The NUL-padded UID 1.2.840.10008.1.2.1 selects explicit little-endian. |
| DicomElementLemmas.ExplicitBigEndianSelected | core/file/dicom/element.cpp:205-208 | The NUL-padded UID 1.2.840.10008.1.2.2 selects explicit big-endian. |
| DicomElementLemmas.ImplicitLittleEndianSelected | core/file/dicom/element.cpp:209-212 | The NUL-padded UID 1.2.840.10008.1.2 selects implicit little-endian. |
| DicomElementLemmas.DeflatedSelected | core/file/dicom/element.cpp:213-214 | The UID 1.2.840.10008.1.2.1.99 selects deflated syntax, which fails. |
| DicomElementLemmas.UnpaddedImplicitSelectsExplicit | core/file/dicom/element.cpp:201-212 | An implicit-little-endian UID of odd length 17, without its NUL pad, matches the explicit little-endian prefix first. |
| DicomElement.Element.ReadWords | core/file/dicom/element.cpp:261-292 | The pointer loop reads the words of the value as `Words` gives them. |
| DicomElement.Element.GetInt | core/file/dicom/element.cpp:260-279 | The method returns `IntValues`: SL/SS words as signed, IS text parsed, and nothing for other VRs. |
| DicomElement.Element.GetUInt | core/file/dicom/element.cpp:284-301 | The method returns `UIntValues`: UL/US words unsigned, IS text parsed, and nothing for other VRs. |
| DicomElement.Element.GetString | core/file/dicom/element.cpp:329-343 | The method returns `StringValues`: an AT value as "%02X %02X" text, and otherwise the split, stripped values with '^' replaced. |
| DicomElementLemmas.WordValuesRoundTrip | core/file/dicom/element.cpp:260-301 | Encoded SL/SS words decode through `get_int` to their signed values, and UL/US words through `get_uint` to themselves. |
| DicomElementLemmas.SignedAgrees | core/file/dicom/element.cpp:262-266 | A signed word agrees with the unsigned one modulo its width, and equals it below the sign bit. |
| DicomElementLemmas.TagTextRoundTrip | core/file/dicom/element.cpp:331-335 | An AT value yields a single text that parses back to its group and element. |
| DicomElementLemmas.TextValueCounts | core/file/dicom/element.cpp:337-341 | A text value yields one piece per backslash plus one, and no piece holds a backslash or a caret. IS integers are the pieces parsed. |
| DicomBytes.StrNEqMeaning | core/file/dicom/element.cpp:201 | The model of `strncmp(...) == 0` against a NUL-free literal compares up to n bytes, stopping after the literal's terminating NUL. |
| DicomBytes.SplitJoin | core/file/dicom/element.cpp:337 | Joining the pieces of a split restores the value. |
| DicomBytes.SplitCount | core/file/dicom/element.cpp:337 | A split gives one piece per separator plus one. |
| DicomBytes.Strip | core/file/dicom/element.cpp:339 | Strip removes exactly the leading and trailing whitespace, and keeps the rest in place. |
| DicomBytes.Replace | core/file/dicom/element.cpp:340 | Every '^' becomes ' ', and nothing else changes. |
| DicomBytes.Format02XRoundTrip | core/file/dicom/element.cpp:333 | "%02X" text parses back to its number. |
| DicomBytes.WordsRoundTrip | core/file/dicom/element.cpp:261-266 | Words encoded in either byte order are read back by the pointer loop. |
| DicomBytes.WordsCount | core/file/dicom/element.cpp:261-266 | The loop reads ceil(size/width) words: the last one may overhang the value. |
| DicomBytes.Fetch16Encode | core/file/dicom/element.cpp:131-136 | A 16-bit field reads back the value encoded in its byte order. |
| DicomBytes.Fetch32Encode | core/file/dicom/element.cpp:133 | A 32-bit field reads back the value encoded in its byte order. |
| DicomBytes.FetchOtherOrder | core/file/dicom/element.cpp:97-110 | Reading a 16-bit field in the other byte order swaps its bytes. The swap is its own inverse. |

## Left out

- The GLM, TFCE enhancement, permutation testing and all output after the data matrix is loaded are left out. They lie outside the modelled core.
- File I/O is left out: the subject list, matrix loading and saving, sparse buffers, the memory map, gzip and NIfTI header encoding. Files are given as values: a byte sequence, fixel voxels, or a decoded data offset.
- `Thread::run_queue` is not modelled. Its concurrent pipeline is a sequential fold over the streamlines, because the visit and pair counts commute. The track loader and mapper supply the tangents as input.
- Single-precision arithmetic is left out: values are reals. `cos`, `exp`, `pow` and `sqrt` are function parameters, with only the sign facts the proofs need.
- Normalise.NormalisedSumsToOne: it requires a non-zero sum. A zero sum would make the source divide by zero. `WeightsPositive` shows that, for rows built by the normalisation pass, this cannot happen.
- FixelGeometry.Match: it assumes the angle option's range of 0-90 degrees, as the option declaration enforces. Outside it, the cosine would be negative.
- The option parser is not modelled. `RunChecks.ReadSettings` takes the parsed values within their declared ranges.
- The help text gives other defaults for tfce_H and tfce_E than `run()` uses. The model follows the code (2.0 and 1.0).
- `int` is 32-bit in `RunChecks.Int32`. Other integer widths appear only where they change behaviour: the DICOM word widths, the `size_t` count, and the `uint16_t` TDI in `TrackProcessing.AddVisitsUint16` alone.
- TrackProcessing.TrackProcessor: its `fixelTDI` counts visits without bound. This is the corrected TDI of the first finding below, which the normalisation relies on. The `uint16_t` count as written is `TrackProcessing.AddVisitsUint16`, and `TrackProcessing.Uint16IsUnboundedModulo` proves it is the class's count modulo 65536.
- TrackProcessing.TrackProcessor.AssignAll: its TDI increments do not wrap at 65536 as the `uint16_t` entries of cmd/fixelcfestats.cpp:300 do; see the line above.
- TrackProcessing.TrackProcessor.Process: the TDI it adds does not wrap at 65536 as the `uint16_t` entries of cmd/fixelcfestats.cpp:300 do; see the `TrackProcessing.TrackProcessor` line.
- TrackProcessing.TrackProcessor.ProcessAll: the summed visits are unbounded, where the source's `uint16_t` TDI wraps at 65536; `TrackProcessing.Uint16IsUnboundedModulo` gives the source's value from its `ensures`.
- The `CONSOLE`, `WARN`, `INFO`, `DEBUG` and progress output are left out. The low-track-count warning is a flag.
- DicomElement.Element: the Element's member variables form one `Parser` value. Its methods therefore change that value, the buffer and the name as a whole.
- element.h is not part of this model. The constructor's initial state (NULL pointers, VR 0) is inferred from the code's uses.
- The `read_write` flag of `set` only chooses how the file is mapped, so it is not modelled.
- The DICOM dictionary (`tag_name`, `get_VR_from_tag_name`) is a map parameter from tag to VR.
- The `to<int32_t>` and `to<uint32_t>` parsers of IS values are function parameters.
- `get_float` is left out: it decodes floating-point values.
- `error_message` is a global in the source. It is held as a flag in the reader's state.
- After an exception, the source leaves the reader in some partly updated state. The model does not specify that state.
- Bytes read past the end of the mapped file are undefined behaviour in the source. In the model they read as 0.
- `strip` is modelled with a fixed whitespace set: space, tab, newline, carriage return and NUL.
- DicomBytes.Split: `split` (core/mrtrix.cpp) is not part of this model. It is assumed to give one empty piece for an empty value, as it does for an empty piece between separators, so a zero-length text element yields one empty value. A `split` that returns no pieces for an empty string would give no values; `DicomElementLemmas.TextValueCounts` and `DicomElement.Element.GetString` depend on this choice.
- `report_unknown_tag_with_implicit_syntax` only logs, so its output is left out.
- NIfTI1GZ.Header.Read: it does not decode the header. `File::NIfTI::read` is not part of this model; the data offset is a parameter, and the contract says nothing of the axes the decode sets.
- NIfTI1GZ.Header.Create: it does not write the header. `File::NIfTI::write` and `File::create` are not part of this model.
- AntsStrides: the header read and the `mrconvert` and `antsBrainExtraction.sh` commands run external programs, so they are left out.

## Findings

| source | as written | input that shows it | evidently intended | confidence | as-written member | corrected member |
|---|---|---|---|---|---|---|
| cmd/fixelcfestats.cpp:300 | The fixel TDI is a `uint16_t`, so a fixel's visit count wraps to 0 after 65536 visits. | 65536 streamline tangents assigned to one fixel. Its TDI becomes 0 while its connectivity row is not empty, and line 340 then divides by 0. | The TDI counts every visit. | not executed | TrackProcessing.Uint16TdiWraps | TrackProcessing.UnboundedTdiKeepsInvariant |
| lib/image/format/nifti1_gz.cpp:77-78 | The second assignment writes axis 1 again, so axis 1 becomes inferior->superior and axis 2 gets no label. | `check` with 3 axes on a header without axes. | Axis 2 is inferior->superior in mm, and axis 1 stays posterior->anterior. | not executed | NIfTI1GZ.CheckMislabelsAxes | NIfTI1GZ.IntendedDescriptions |
