# Flight data access: HDF validation, downsampling and parameter lists

This project is a Dafny model of three parts of the flight data access library.

- **The HDF validator** (`flightdataaccessor/tools/hdfvalidator.py`).
  - `Logging.ValidatorHandler` is the logging handler that counts errors and warnings and can stop at the first error.
  - The checks on the `/series` namespace are in `Namespace`.
  - The checks on required parameter and root attributes are in `Attributes`.
  - The frame-aligned data size check is in `Sizes`.
  - The parameter frequency and root `frequencies` checks are in `Frequencies`.
  - The frame and subframe counter reliability checks are in `Counters`.
  - Each check is a pure function from the facts it reads to a report datatype.
  - For the namespace, duration, start_timestamp, frequencies and counter-attribute checks, a second function gives the levels of the records the check logs itself, in order, its section title and headings included. Lemmas count the errors and warnings in that sequence.
  - For missing parameter and root attributes, `Attributes.MissingLevels` gives only the ERROR records for the missing attributes. The subtitles around them and the records of the imported validators are not in it.
  - The root `frequencies` check loops over the values and counts the floats, so it is a `method` with a loop, proved against its specification functions.
- **Downsampling**, as the downsample tests fix it (`tests/datatypes/downsample_test.py`).
  - A numeric series of output width `width` is cut into width/2 buckets of equal length. Each bucket fills two output slots with its minimum and its maximum, in index order.
  - A string series, or a mapped one, keeps the most common value of each bucket.
  - Masked samples are `None`.
  - A bucket with nothing unmasked yields masked output.
  - `DownsampleScenarios` proves each test's expected output.
- **The parameter-list generator** (`hdfaccess/tools/gen_param_list.py`).
  - `variable_from_filename` becomes `ParamList.VariableFromFilename`. Its helpers model `os.path.splitext`, `split(os.sep)[-1]`, `upper()` and `replace('-', '_')`.
  - The generated list line `"    '%s',\n" % l.strip()` is modelled.
  - The final `' +\n    '.join(...)` is modelled.

Modules: `Wrappers` (Option), `Logging`, `Text` (ASCII case mapping and substring search), `Counters`, `Namespace`, `Attributes`, `Sizes`, `Frequencies`, `Downsampling`, `DownsampleScenarios`, `ParamList`.

The model mixes two Python versions, as the sources read differently under each. The parameter-list generator works on Python 2 byte strings: ASCII case and ASCII whitespace. The subframe counter test reads `len / 4095` as Python 3 true division, and the Python 2 floor division is modelled beside it.

Log levels are Python's integers: DEBUG 10, INFO 20, WARN 30, ERROR 40, CRITICAL 50. A record counts as an error when its level is at least 40 and as a warning when its level is exactly 30.

## Model

| member | source | states |
|---|---|---|
| Logging.ValidatorHandler.constructor | flightdataaccessor/tools/hdfvalidator.py:44-48 | A new handler keeps the stop-on-error flag and starts with zero errors and zero warnings. |
| Logging.ValidatorHandler.Emit | flightdataaccessor/tools/hdfvalidator.py:50-58 | A record of level >= ERROR adds one error. A record of level exactly WARN adds one warning. Any other level changes nothing. The handler stops exactly when stop-on-error is set and the record is an error, after counting it. |
| Logging.ValidatorHandler.GetErrorCounts | flightdataaccessor/tools/hdfvalidator.py:60-62 | Returns the current warning and error counts without changing them. |
| Logging.ErrorsInZero | flightdataaccessor/tools/hdfvalidator.py:53-54 | A sequence of levels adds no error exactly when none of its levels is >= ERROR. |
| Logging.ErrorsInConcat | flightdataaccessor/tools/hdfvalidator.py:53-54 | Error counts add up over concatenated runs of records. |
| Logging.WarningsInConcat | flightdataaccessor/tools/hdfvalidator.py:55-56 | Warning counts add up over concatenated runs of records. |
| Logging.Log | flightdataaccessor/tools/hdfvalidator.py:65-68 | Handling records one by one adds the errors and warnings of the records delivered before any stop. It stops exactly when stop-on-error is set and some record is an error. |
| Logging.DeliveredPrefixToFirstError | flightdataaccessor/tools/hdfvalidator.py:57-58 | The delivered records are a prefix of the records. With stop-on-error no error comes before the last delivered record, and delivery falls short of the whole list only by ending at an error. So it is the list up to and including its first error, or all of it. |
| Logging.DeliveredAll | flightdataaccessor/tools/hdfvalidator.py:65-68 | Without stop-on-error, every record is delivered. |
| Logging.DeliveredStopsAtFirstError | flightdataaccessor/tools/hdfvalidator.py:57-58 | With stop-on-error, at most one error is counted: one if the records contain an error, none otherwise. |
| Counters.Diff | flightdataaccessor/tools/hdfvalidator.py:354 | `np.ma.diff` has one element fewer than its input. An element is masked exactly when either neighbour is masked; otherwise it is the difference of the neighbours. |
| Counters.CountOutsideZero | flightdataaccessor/tools/hdfvalidator.py:351 | `masked_inside(pfc, 0, 4095).count()` is zero exactly when every unmasked sample lies in [0, 4095]. |
| Counters.CountOtherThanZero | flightdataaccessor/tools/hdfvalidator.py:355-357 | After masking the allowed steps, the count is zero exactly when every unmasked step is allowed. |
| Counters.IsReliableFrameCounter | flightdataaccessor/tools/hdfvalidator.py:345-359 | The frame counter is reliable exactly when the parameter exists, every unmasked value is in [0, 4095], and every unmasked step is +1 or a wrap of -4095. |
| Counters.FrameCounterReliableIff | flightdataaccessor/tools/hdfvalidator.py:351-358 | The two masked counts are both zero exactly when every unmasked value is in [0, 4095] and every unmasked step is +1 or -4095. |
| Counters.ShortFrameCounterReliable | flightdataaccessor/tools/hdfvalidator.py:351-358 | A frame counter of at most one in-range sample has no steps, so it is reliable. |
| Counters.OutOfRangeUnreliable | flightdataaccessor/tools/hdfvalidator.py:351-352 | One unmasked value outside [0, 4095] makes the frame counter unreliable. |
| Counters.IrregularSubframeSteps | flightdataaccessor/tools/hdfvalidator.py:412 | The number of unmasked steps other than +1 is at most the number of steps. |
| Counters.IsReliableSubframeCounter | flightdataaccessor/tools/hdfvalidator.py:406-415 | The subframe counter is reliable exactly when the parameter exists and the number of unmasked steps other than +1 is less than len/4095, with true division. |
| Counters.ShortSubframeCounter | flightdataaccessor/tools/hdfvalidator.py:412-415 | A subframe counter of at most 4095 samples is reliable exactly when it is non-empty and has no irregular step. An empty counter is never reliable. |
| Counters.IsReliableSubframeCounterFloorDivision | flightdataaccessor/tools/hdfvalidator.py:406-415 | Read with floor division (Python 2), the test passes exactly when the parameter exists and (irregular steps + 1) * 4095 <= len. So it is stricter: it passes only counters the true-division test passes, and rejects every counter shorter than 4095 samples. |
| Counters.CounterAttributeCheck | flightdataaccessor/tools/hdfvalidator.py:362-403 | Reports a missing attribute exactly when it is absent. Otherwise it picks one of six agreements. The agreement records whether the parameter exists, whether the attribute is true, and, when the parameter exists, whether it is reliable. A wrong-type flag is set exactly when the value is not a bool. |
| Counters.CounterAttributeErrors | flightdataaccessor/tools/hdfvalidator.py:362-403 | The check logs one error exactly when the attribute is missing or not a boolean. A disagreement with the counter is only logged as information. The levels are the heading, then the missing error, or the presence line, the agreement line and the type error if any. |
| Counters.FrameCounterAttributeCheck | flightdataaccessor/tools/hdfvalidator.py:362-403 | The attribute is reported missing exactly when it is absent. Otherwise the agreement records whether 'Frame Counter' exists and whether the attribute is true. For an existing counter it says "reliable" exactly when the counter stays in [0, 4095] and counts up by one with wrap. The wrong-type flag is set exactly when the value is not a bool. |
| Counters.SubframeCounterAttributeCheck | flightdataaccessor/tools/hdfvalidator.py:418-459 | The same decision for 'Subframe Counter'. For an existing counter it says "reliable" exactly when irregular steps * 4095 < len. |
| Text.LowerChar | flightdataaccessor/tools/hdfvalidator.py:218 | An upper-case ASCII letter becomes its own lower-case letter, 32 code points on. Every other character is unchanged. |
| Text.Lower | flightdataaccessor/tools/hdfvalidator.py:218 | Lower-casing keeps the length and lower-cases each character on its own. |
| Text.UpperChar | hdfaccess/tools/gen_param_list.py:21 | A lower-case ASCII letter becomes its own upper-case letter, 32 code points back. Every other character is unchanged. |
| Text.CaseRoundTrip | hdfaccess/tools/gen_param_list.py:21 | Upper-casing a lower-cased capital gives the capital back, and lower-casing an upper-cased small letter gives the small letter back. |
| Text.Upper | hdfaccess/tools/gen_param_list.py:21 | Upper-casing keeps the length and upper-cases each character on its own. |
| Text.ContainsSameLength | flightdataaccessor/tools/hdfvalidator.py:218 | A string contains a pattern of its own length exactly when the two are equal. |
| Namespace.SeriesLike | flightdataaccessor/tools/hdfvalidator.py:218 | Keeps exactly the keys whose lower-cased form contains 'series'. |
| Namespace.OtherGroups | flightdataaccessor/tools/hdfvalidator.py:252 | Keeps exactly the keys that do not contain 'series'. |
| Namespace.ValidateNamespace | flightdataaccessor/tools/hdfvalidator.py:210-252 | Finds 'series' exactly when it is a root key. It reports wrong-case candidates exactly when 'series' is missing and some key matches case-insensitively. It classifies the root groups (only 'series', only one other, none, 'series' and others, others without 'series') by iff conditions on the keys. It lists the non-series groups whenever the source prints them. |
| Namespace.NamespaceCounts | flightdataaccessor/tools/hdfvalidator.py:210-252 | A namespace without 'series' logs two errors: one for the missing name and one for the group layout. With 'series' it logs no error, plus one warning when other groups sit beside it. |
| Namespace.ReportCounts | flightdataaccessor/tools/hdfvalidator.py:210-252 | The levels of a namespace report (title, lookup, heading, groups verdict, shown groups) hold one error for a failed lookup, one for wrong groups, and one warning only for 'series' beside other groups. |
| Namespace.OnlyCapitalisedSeries | flightdataaccessor/tools/hdfvalidator.py:214-235 | A file whose only group is 'Series' reports the wrong case and an error about the group layout. |
| Attributes.NeedsUnits | flightdataaccessor/tools/hdfvalidator.py:121-123 | Units are required exactly when the data type is not one of the five unitless types. |
| Attributes.Missing | flightdataaccessor/tools/hdfvalidator.py:124-127 | Keeps exactly the expected attributes that are not present, in order and without duplicates. |
| Attributes.MissingFromNothing | flightdataaccessor/tools/hdfvalidator.py:124-127 | With no attributes present, every expected attribute is missing. |
| Attributes.MissingParameterAttributes | flightdataaccessor/tools/hdfvalidator.py:119-127 | A required parameter attribute is reported exactly when it is absent. Units are reported exactly when they are needed and absent. Nothing else is reported, and nothing twice. |
| Attributes.BareParameter | flightdataaccessor/tools/hdfvalidator.py:120-127 | A parameter with no attributes misses six of them when it needs units and five otherwise. |
| Attributes.MissingLevels | flightdataaccessor/tools/hdfvalidator.py:124-127 | One log record per missing attribute. |
| Attributes.MissingLevelsErrors | flightdataaccessor/tools/hdfvalidator.py:124-127 | Each missing attribute is exactly one error, and none is a warning. |
| Attributes.AllParameterValidators | flightdataaccessor/tools/hdfvalidator.py:128-142 | The validator list holds every follow-up validator of a parameter. |
| Attributes.SelectValidators | flightdataaccessor/tools/hdfvalidator.py:128-142 | Keeps exactly the validators that are unconditional or whose attribute is present. |
| Attributes.ParameterFollowUps | flightdataaccessor/tools/hdfvalidator.py:128-142 | The unconditional validators always run. data_type, frequency, lfl, name and units are each validated exactly when present. |
| Attributes.MissingRootAttributes | flightdataaccessor/tools/hdfvalidator.py:262-267 | Reports exactly the absent root attributes among duration, reliable_frame_counter and reliable_subframe_counter, without duplicates. |
| Attributes.RootFollowUps | flightdataaccessor/tools/hdfvalidator.py:268-276 | The frequencies, start_timestamp and superframe_present checks always run. The duration and counter checks run exactly when their attribute is present. |
| Attributes.DurationCheck | flightdataaccessor/tools/hdfvalidator.py:279-296 | Duration is absent exactly when it is unset or zero. It is of the wrong type exactly when it is set and non-zero but not an int. |
| Attributes.DurationErrors | flightdataaccessor/tools/hdfvalidator.py:279-296 | The duration check logs one error unless duration is set, non-zero and an int. Its levels are the heading, then the value and its type line, or the missing error. |
| Attributes.StartTimestampCheck | flightdataaccessor/tools/hdfvalidator.py:462-481 | start_timestamp is absent exactly when unset or zero. It is of the wrong type exactly when set and non-zero but not a float. |
| Attributes.StartTimestampErrors | flightdataaccessor/tools/hdfvalidator.py:462-481 | The start_timestamp check logs one error exactly when the value is present but not a float. An absent value is not an error. Its levels are the heading, then the presence, time, epoch value and type lines, or the absence line. |
| Sizes.Boundary | flightdataaccessor/tools/hdfvalidator.py:173 | The boundary is positive: 64 seconds with superframes, 4 without. |
| Sizes.Truncate | flightdataaccessor/tools/hdfvalidator.py:191 | `int()` of a float truncates toward zero. |
| Sizes.CeilDiv | flightdataaccessor/tools/hdfvalidator.py:180 | The ceiling of duration / boundary is the least c with duration <= c * boundary. |
| Sizes.AlignedDurationBounds | flightdataaccessor/tools/hdfvalidator.py:179-180 | The aligned duration is a whole number of boundaries. It is at least the duration and less than one boundary more. |
| Sizes.ExpectedSizeCheck | flightdataaccessor/tools/hdfvalidator.py:178-206 | Not enough information exactly when duration or frequency is unset or zero. Otherwise it reports the truncated expected size. It reports a mismatch exactly when the exact expected size differs from the array size, with the padding equal to the expected size minus the array size. |
| Sizes.ExpectedSizeErrors | flightdataaccessor/tools/hdfvalidator.py:178-206 | The size check logs one error unless the size is as expected. |
| Sizes.WholeExpectedSize | flightdataaccessor/tools/hdfvalidator.py:179-191 | With a whole frequency, truncation loses nothing, and the expected size is a multiple of boundary * frequency. |
| Sizes.TenSecondsAtOneHertz | flightdataaccessor/tools/hdfvalidator.py:178-203 | 10 s at 1 Hz without superframes expects 12 samples, so a 10-sample array needs 2 more. |
| Sizes.HundredSecondsWithSuperframes | flightdataaccessor/tools/hdfvalidator.py:178-206 | 100 s at 4 Hz with superframes expects 512 samples. |
| Frequencies.Listed | flightdataaccessor/tools/hdfvalidator.py:164 | The frequencies listed by the root attribute: the items of a container, or the scalar itself. |
| Frequencies.HdfFrequencyWarnsAsWritten | flightdataaccessor/tools/hdfvalidator.py:157-169 | As written: it warns only when both frequencies are set, always for a list root attribute, and otherwise exactly when the parameter's frequency is not listed. |
| Frequencies.ListedFrequencyWarnsAsWritten | flightdataaccessor/tools/hdfvalidator.py:162-169 | As written, a list root attribute [1.0] makes a 1.0 Hz parameter warn, although 1.0 is listed. |
| Frequencies.HdfFrequencyWarns | flightdataaccessor/tools/hdfvalidator.py:157-169 | Corrected: the parameter frequency warns exactly when both frequencies are set and the parameter's is not listed. |
| Frequencies.AsWrittenDiffersOnlyOnLists | flightdataaccessor/tools/hdfvalidator.py:163-169 | The as-written and the corrected check agree on arrays and scalars. |
| Frequencies.RootSet | flightdataaccessor/tools/hdfvalidator.py:314 | The root set holds exactly the listed frequency values. |
| Frequencies.ParamsSet | flightdataaccessor/tools/hdfvalidator.py:331 | The parameter set holds exactly the parameter frequencies, unset ones included. |
| Frequencies.CompareFrequencies | flightdataaccessor/tools/hdfvalidator.py:332-342 | Covers exactly when the sets are equal. "Unused" names a non-empty root-minus-parameters difference. "Not listed" is reported only when the root set is a strict subset, and names the difference. |
| Frequencies.BothDifferencesReportUnused | flightdataaccessor/tools/hdfvalidator.py:335-342 | When both differences are non-empty, only the unused root frequencies are reported. |
| Frequencies.FloatCount | flightdataaccessor/tools/hdfvalidator.py:313-317 | The count of float values is at most the number of values, and it equals that number exactly when every value is a float. |
| Frequencies.NonFloatErrorsCount | flightdataaccessor/tools/hdfvalidator.py:315-320 | One error per non-float value. |
| Frequencies.NonFloatWarningsZero | flightdataaccessor/tools/hdfvalidator.py:315-320 | The per-value messages contain no warning. |
| Frequencies.FrequenciesOutcome | flightdataaccessor/tools/hdfvalidator.py:299-342 | Nothing is checked exactly when the attribute is absent. `rootfreq` is unbound exactly for a non-float scalar. |
| Frequencies.FrequenciesCheckedMeaning | flightdataaccessor/tools/hdfvalidator.py:312-334 | A checked outcome counts no non-float exactly when every listed value is a float. It finds that the root list covers the parameters exactly when every parameter has a frequency and the parameters use exactly the listed values. |
| Frequencies.CoversIff | flightdataaccessor/tools/hdfvalidator.py:331-332 | The root set equals the parameter set exactly when no parameter lacks a frequency and the parameter frequencies are exactly the listed ones. |
| Frequencies.ValidateFrequenciesAttribute | flightdataaccessor/tools/hdfvalidator.py:299-342 | The loop counts the floats and logs one error per non-float. The method returns the outcome and the levels that the specification functions give: nothing more when absent; a comparison for a container or a float scalar; the unbound `rootfreq` outcome for a non-float scalar. |
| Frequencies.FrequenciesErrors | flightdataaccessor/tools/hdfvalidator.py:305-342 | Errors logged: none when absent. For a container, one per non-float plus one more if any. One for a non-float scalar. No warnings in any case. |
| Frequencies.FloatListCovers | flightdataaccessor/tools/hdfvalidator.py:312-334 | A list of floats matching exactly the parameters' frequencies logs no error and reports that it covers them. |
| Downsampling.Best | tests/datatypes/downsample_test.py:13-14 | Given a bucket with an unmasked sample, picks the index of an unmasked sample of maximal score, the earliest such. The all-masked bucket is handled by `MinMaxBucket`. |
| Downsampling.MinMaxBucket | tests/datatypes/downsample_test.py:13-14 | A bucket yields two values: both masked exactly when the bucket is all masked. Otherwise its minimum and its maximum, in the order they occur. |
| Downsampling.MonotoneBucket | tests/datatypes/downsample_test.py:11-17 | An increasing or decreasing unmasked bucket yields its first and last samples. |
| Downsampling.OrderedExtremes | tests/datatypes/downsample_test.py:11-17 | In a strictly ordered bucket the first and last samples are its extremes. |
| Downsampling.IncreasingBetween | tests/datatypes/downsample_test.py:11-14 | Every sample of an increasing bucket lies between its first and last. |
| Downsampling.DecreasingBetween | tests/datatypes/downsample_test.py:15-17 | Every sample of a decreasing bucket lies between its last and first. |
| Downsampling.Occurrences | tests/datatypes/downsample_test.py:40-46 | Counts a value's occurrences, at most the length of the bucket. |
| Downsampling.OccurrencesConcat | tests/datatypes/downsample_test.py:40-46 | Occurrences add up over concatenation. |
| Downsampling.MostCommon | tests/datatypes/downsample_test.py:40-46 | The mode is a member with maximal count, the earliest such. |
| Downsampling.ModeBucket | tests/datatypes/downsample_test.py:56-65 | A bucket yields the same value in both slots. It is masked exactly when the bucket is all masked, and otherwise it is a value of the bucket that no other value outnumbers. |
| Downsampling.UniqueMode | tests/datatypes/downsample_test.py:40-46 | A value that occurs strictly more often than every other is the mode. |
| Downsampling.Chunks | tests/datatypes/downsample_test.py:13 | Splits a series of n*m samples into n buckets of m, whose concatenation is the series. |
| Downsampling.MapCodes | tests/datatypes/downsample_test.py:67-74 | A mapped array reads as its labels, sample by sample, keeping masked samples masked. |
| Downsampling.Buckets | tests/datatypes/downsample_test.py:13 | A series is cut into width/2 buckets of equal length. |
| Downsampling.ModeLabels | tests/datatypes/downsample_test.py:43 | Produces `width` values, two per bucket, each the bucket's mode slot. |
| Downsampling.LabelsOf | tests/datatypes/downsample_test.py:67-74 | A string series reads as itself and a mapped array as its labels, with the same length. |
| Downsampling.DownsampleMostCommonValue | tests/datatypes/downsample_test.py:43 | Produces `width` values. |
| Downsampling.MostCommonValueSlots | tests/datatypes/downsample_test.py:43-65 | An output slot is masked exactly when its bucket is all masked. Otherwise it holds a label of that bucket that no other label outnumbers. |
| Downsampling.Downsample | tests/datatypes/downsample_test.py:10-85 | Produces `width` values. For numbers, output 2k and 2k+1 are bucket k's min/max pair. Strings and mapped arrays go through the most-common-value algorithm. |
| Downsampling.NonNumericUsesMostCommon | tests/datatypes/downsample_test.py:44-45 | For strings and mapped arrays, downsample equals downsample_most_common_value. |
| Downsampling.CodesAsLabels | tests/datatypes/downsample_test.py:67-74 | Downsampling a mapped array equals downsampling its labels. |
| Downsampling.TwoNumberBuckets | tests/datatypes/downsample_test.py:12-14 | With width 4, a numeric series yields the min/max pairs of its two halves. |
| Downsampling.TwoLabelBuckets | tests/datatypes/downsample_test.py:42-46 | With width 4, a string series yields the modes of its two halves, each twice. |
| DownsampleScenarios.RangeDownsample | tests/datatypes/downsample_test.py:11-14 | range(100) with width 4 gives [0, 49, 50, 99]. |
| DownsampleScenarios.ReversedRangeDownsample | tests/datatypes/downsample_test.py:15-17 | The reversed range gives [99, 50, 49, 0]. |
| DownsampleScenarios.MaskedRangeDownsample | tests/datatypes/downsample_test.py:28-35 | With the first half masked, it gives [masked, masked, 50, 99]. |
| DownsampleScenarios.ReversedMaskedRangeDownsample | tests/datatypes/downsample_test.py:36-38 | Reversed with the back half masked, it gives [99, 50, masked, masked]. |
| DownsampleScenarios.OneIsMode | tests/datatypes/downsample_test.py:41-46 | In each half of ['one','two','three','four','one'] * 20, 'one' is the most common value. |
| DownsampleScenarios.StringsDownsample | tests/datatypes/downsample_test.py:40-54 | The strings give ['one'] * 4, the same as downsample_most_common_value. |
| DownsampleScenarios.MaskedStringsDownsample | tests/datatypes/downsample_test.py:56-65 | Masked in the first half, they give [masked, masked, 'one', 'one'] by both routes. |
| DownsampleScenarios.MappedDownsample | tests/datatypes/downsample_test.py:67-74 | The mapped codes [1,2,3,4,1] * 20 give ['one'] * 4 by both routes. |
| DownsampleScenarios.MaskedMappedDownsample | tests/datatypes/downsample_test.py:76-85 | Masked in the first half, they give [masked, masked, 'one', 'one'] by both routes. |
| ParamList.RFind | hdfaccess/tools/gen_param_list.py:20-21 | Finds the last index of a character, or none when it does not occur. |
| ParamList.SplitExt | hdfaccess/tools/gen_param_list.py:20 | Root and extension concatenate to the path. The extension is empty, or it starts with a '.' and holds no '/' and no other '.', so it starts at the last '.' of the last component. |
| ParamList.HasExtensionIff | hdfaccess/tools/gen_param_list.py:20 | A name has an extension exactly when its last component has a non-dot followed later by a dot. So a hidden file's leading dots never start an extension. |
| ParamList.LastComponent | hdfaccess/tools/gen_param_list.py:21 | The part after the last '/': it has no '/' and ends the path. |
| ParamList.ReplaceHyphens | hdfaccess/tools/gen_param_list.py:21 | Keeps the length and leaves no '-'. Every other character is unchanged and every '-' becomes '_'. |
| ParamList.Stem | hdfaccess/tools/gen_param_list.py:20-21 | The stem has no '/'. It is the part of the name between the start or the last '/' before it and the extension. |
| ParamList.VariableChar | hdfaccess/tools/gen_param_list.py:21 | A character maps to neither '-' nor a lower-case letter, and only '/' maps to '/'. |
| ParamList.VariableFromFilename | hdfaccess/tools/gen_param_list.py:16-21 | The variable name has the stem's length and is mapped character by character. It has no '-', no '/' and no lower-case letter. |
| ParamList.VariableIgnoresDirectory | hdfaccess/tools/gen_param_list.py:20-21 | A directory prefix does not change the variable name. |
| ParamList.ParametersA320 | hdfaccess/tools/gen_param_list.py:11-21 | 'list_data/parameters-a320.txt' gives 'PARAMETERS_A320'. |
| ParamList.HiddenFileHasNoExtension | hdfaccess/tools/gen_param_list.py:20-21 | A leading-dot name such as '.profile' keeps its dot: it gives '.PROFILE'. |
| ParamList.Strip | hdfaccess/tools/gen_param_list.py:39 | `strip()` removes exactly the leading and trailing ASCII whitespace, so the result is empty or starts and ends with non-space. |
| ParamList.StripUnique | hdfaccess/tools/gen_param_list.py:39 | Any decomposition into whitespace margins around a text with no margin whitespace names exactly the stripped text. |
| ParamList.EmptyStripAllSpace | hdfaccess/tools/gen_param_list.py:39 | A line that strips to empty is all whitespace. |
| ParamList.NonEmptyStripHasText | hdfaccess/tools/gen_param_list.py:39 | A line that strips to something non-empty has a character that is not whitespace. |
| ParamList.StripEmptyIff | hdfaccess/tools/gen_param_list.py:39 | A line strips to empty exactly when it is all whitespace. |
| ParamList.StripIdempotent | hdfaccess/tools/gen_param_list.py:39 | Stripping twice is stripping once. |
| ParamList.ListLine | hdfaccess/tools/gen_param_list.py:39 | The generated line is four spaces and a quote, the stripped line, then a quote, a comma and a newline. |
| ParamList.ListLineInjective | hdfaccess/tools/gen_param_list.py:39 | Two input lines give the same list line exactly when they strip to the same text. |
| ParamList.ListLines | hdfaccess/tools/gen_param_list.py:39 | Writing the lines of a file gives the first line's list line followed by the list lines of the rest. It is at least eight characters per line, and nothing exactly when there are no lines. |
| ParamList.ListLinesConcat | hdfaccess/tools/gen_param_list.py:39 | The lines of concatenated files are the concatenated lines. |
| ParamList.Join | hdfaccess/tools/gen_param_list.py:42 | Joining nothing gives the empty string, and joining one string gives that string. A join begins with the first string and ends with the last. |
| ParamList.JoinLength | hdfaccess/tools/gen_param_list.py:42 | The join's length is the names' lengths plus one separator between each pair. |
| ParamList.JoinAppend | hdfaccess/tools/gen_param_list.py:42 | Joining one more name appends the separator and that name. |
| ParamList.VariableNames | hdfaccess/tools/gen_param_list.py:42 | One variable name per file, each that file's name. |
| ParamList.ListStr | hdfaccess/tools/gen_param_list.py:42 | No files give the empty string, and one file gives its variable name alone. Otherwise the list string begins with the first file's variable name and ends with the last file's. |
| ParamList.ListStrAppend | hdfaccess/tools/gen_param_list.py:42 | One more file appends ' +\n    ' and its variable name to the list string. |

## Left out

- File and HDF5 access (`h5py`, opening files, reading attributes and arrays) is not modelled. Each check takes the values it would read as parameters.
- `validate_file` and `main` (command-line parsing, file checks, the handler's level filter, summary printing) are not modelled. They orchestrate the checks and do I/O.
- The foreign validators (`validate_arinc_429`, `validate_source_name`, `validate_units` and the others imported from `flightdatautilities.validation_tools.param_validator`) are not modelled. Only which of them run is, in `Attributes.ParameterFollowUps`.
- `validate_parameters`, `validate_parameters_dataset` and `validate_superframe_present_attribute` are not modelled as operations. `validate_parameters` loops over the parameters, logs an ERROR and skips a parameter whose array raises `MaskError`, and runs the attribute and dataset checks. `validate_parameters_dataset` runs `expected_size_check` (modelled as `Sizes.ExpectedSizeCheck`) and the foreign `validate_dataset`. `validate_superframe_present_attribute` only logs information.
- Log message texts are not modelled. Records are their levels. A section title (`log_title`) is the three INFO records of `Logging.SECTION_TITLE`. Titles and subtitles of the parameter and root-attribute sections are not in any level sequence.
- Python type names (`'array' in type(...).__name__`, `'float' in ...`, `'int' in ...`) are abstracted to booleans or to the variants of `Frequencies.RootFrequencies`.
- Floating point is not modelled. Frequencies and attribute values are exact `real`s.
- Attributes.DurationCheck: the source reads the duration twice, as `hdf.duration` (line 285) and as `hdf.file.attrs['duration']` (line 288). The model takes both as one value of type `Option<real>`, `None` when the attribute is absent.
- Sizes.ExpectedSizeCheck: takes that same duration as a whole number of seconds, `Option<nat>`. A fractional duration, and float rounding in `ceil(duration / boundary) * boundary * frequency`, are not modelled.
- Counters.IsReliableSubframeCounter: states the Python 3 reading of `len / 4095`. The Python 2 floor-division reading is modelled separately as `Counters.IsReliableSubframeCounterFloorDivision`.
- Counters.IsReliableFrameCounter: line 351 applies `masked_inside` to the Parameter object `pfc`, while line 354 uses `pfc.array`. The model reads both as the parameter's array.
- Attributes.StartTimestampCheck: tests `hdf.start_datetime` (line 468), an accessor of the HDF file class. That class is not part of this model. The model assumes it is falsy exactly when start_timestamp is unset or zero.
- Numeric series are `seq<Option<int>>`: frame counters and downsampled numeric series hold integers. Float series are not modelled.
- Text.Lower: ASCII letters only. Python's Unicode case mapping is not modelled.
- Text.Upper: ASCII letters only, for the same reason.
- ParamList.Strip: removes the six ASCII whitespace characters only. Unicode whitespace is not modelled.
- ParamList.LastComponent: uses the POSIX separator '/' for `os.sep`.
- Downsampling.Downsample: specified only on lengths the tests use. The width must be even and at least 2, and the length a multiple of width/2. Behaviour for irregular lengths is not fixed by the tests.
- Downsampling.Downsample: mapped arrays require every unmasked code to have a label.
- Downsampling.Best: ties are broken by the earliest index. The tests never depend on a tie.
- Downsampling.DownsampleMostCommonValue: required to take a non-numeric series. The tests only call it on strings and mapped arrays.
- The downsample module itself (`flightdataaccessor/datatypes/downsample.py`) is not part of this model. The model states what the tests fix.
- Frequencies.ValidateFrequenciesAttribute: a non-float scalar leaves `rootfreq` unbound in the source, which raises at line 332. The model returns the `RootFrequenciesUnbound` outcome instead of raising.
- `generate_parameter_list`'s file writing (the header, `'%s = [\n'` and the closing lines) and the `glob` for the input files are not modelled. Only the list lines and the final join are.

## Findings

| source | as written | input that shows it | evidently intended | confidence | as-written member | corrected member |
|---|---|---|---|---|---|---|
| flightdataaccessor/tools/hdfvalidator.py:163 | Only a root value whose type name contains 'array' is searched. A list is compared as a whole with the parameter's number, so the two always differ. | root `frequencies` = the list [1.0], parameter frequency 1.0: it warns "Value not in the Root attribute list", although 1.0 is listed | Search a list like an array, as `validate_frequencies_attribute` (line 312) treats both as containers | medium, not executed | Frequencies.ListedFrequencyWarnsAsWritten | Frequencies.HdfFrequencyWarns |
