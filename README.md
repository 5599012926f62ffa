# PypeIt slit tracing and setup bookkeeping, in Dafny

This project models three parts of the PypeIt spectroscopic reduction
pipeline and proves properties of them.

- **The slit-tracing driver** (`TraceSlits` in `pypit/traceslits.py`). The
  object holds an integer edge map (`edgearr`). Negative labels mark left
  slit edges, positive labels right edges and zero no edge. The object also
  holds the edge counts, the label ranges `lmin`…`rmax`, the fitted and
  traced edges and the `steps` log. `run` chains the stages: edge detection,
  matching, slit assignment, the optional gap closing, crude tracing, user
  slits, fitting, the longslit check, synchronisation, PCA and trimming.
  - Module `TraceSlits` holds the class `TraceSlits`, with one method per
    stage.
  - Module `EdgeLabels` holds the pure relabellings those stages apply to
    the edge map.
  - The numerical routines of the slit-tracing library are parameters: an
    `Artrace` value of functions. The model promises nothing about them
    except that traces span the detector rows.
- **Setup identifiers** (`pypit/arsetup.py`). `instr_setup` files a science
  exposure under an instrument configuration letter (`A`, `B`, …).
  `det_setup` files the detector dict under a two-digit key (`01`, …).
  `calib_set` files the calibration frames under a set name (`aa`, `ab`, …).
  Together these give an ID such as `A_01_aa`. Each choice is a first-fit
  search in a dictionary that the search updates in place.
  - Module `ArSetup` models them. The setup dictionary is the class
    `SetupDict`, one entry per configuration, and each entry is an
    `InstrConfig` object.
  - Each search is also written as a recursive function, and the methods
    are proved equal to those functions.
- **The `.sorted` file and the group dictionary** (`pypit/arsetup.py`).
  - `load_sorted` reads the setups, setup lines and file tables back from a
    `.sorted` file (module `SortedFile`). It is proved to read back what
    `write_sorted` lays out.
  - `build_group_dict` collects the files and targets of each configuration
    (module `GroupDict`).
- **Spectrum loading bookkeeping** (`pypeit/core/load.py`), in module
  `Load`. This covers which extensions are loaded and in what order:
  - `load_specobjs`: the order number parsed from extension names, and the
    filter by order;
  - `load_1dspec_to_array`: the slit or order IDs, and the distinct orders
    in order of first appearance;
  - `load_ext_to_array`: the extension picked, and the edge mask written
    in place into an array;
  - `load_spec_order`: the extension index read from an `norder` by `nobj`
    table of extension names;
  - `ech_load_spec`: the extensions loaded per file.

Supporting modules:

- `Common`: `Option`/`Result`, Python list indexing, deduplication in order
  of first appearance.
- `PyText`: Python string semantics, such as slices, `split`/`join`,
  `strip`, `int()`, zero-padded formatting and string ordering.
- `Sorting`: `list.sort` as an insertion sort, and the median.

Python exceptions (`msgs.error`, `IndexError`, `KeyError`, `ValueError`,
a failed `assert`) become `Err` results. Arrays whose elements the source
assigns in place are `seq` fields that the methods reassign; the edge mask
of `load_ext_to_array` is an `array`.

## Model

| member | source | states |
|---|---|---|
| TraceSlits.TraceSlits.constructor | pypit/traceslits.py:101-140 | A new object has logged only `make_binarr` and has no edge map, significance map, crude traces or traced edges yet |
| TraceSlits.TraceSlits.EdgearrFromBinarr | pypit/traceslits.py:186-193 | Stores the significance map and edge map the library derives from the image, and logs the stage |
| TraceSlits.TraceSlits.EdgearrSingleSlit | pypit/traceslits.py:195-204 | Succeeds exactly when the `single` list has entries `2(det-1)` and `2(det-1)+1` under Python indexing. On success the edge map is built from those two edges, there is no significance map, and the stage is logged. On failure nothing changes |
| TraceSlits.TraceSlits.MatchEdges | pypit/traceslits.py:302-311 | Stores the matched map and the counts even when the check then fails. Fails exactly when either count reaches `ednum`. Logs the stage only on success |
| TraceSlits.TraceSlits.AddLeftRight | pypit/traceslits.py:206-210 | Stores the library's map and counts, and logs the stage once |
| TraceSlits.TraceSlits.AssignEdges | pypit/traceslits.py:228-243 | A side with a single edge collapses its far labels onto `∓ednum`. A side with more edges is assigned by the library. Left goes before right, then the stage is logged |
| TraceSlits.TraceSlits.MaxgapPrep | pypit/traceslits.py:313-317 | Copies the map first, then shifts every left label by `1 + max - min`. Fails only on an empty map, and then logs nothing |
| TraceSlits.TraceSlits.MaxgapClose | pypit/traceslits.py:319-325 | The library closes the gaps using the saved copy, and the stage is logged |
| TraceSlits.TraceSlits.FinalLeftRight | pypit/traceslits.py:267-272 | Stores the library's final map and counts, and logs the stage |
| TraceSlits.TraceSlits.MslitTcrude | pypit/traceslits.py:335-339 | Stores the crudely traced map and the crude traces, and logs the stage |
| TraceSlits.TraceSlits.MslitSync | pypit/traceslits.py:327-333 | Stores the synchronised map and logs the stage |
| TraceSlits.TraceSlits.ResetEdgearrEdnum | pypit/traceslits.py:382-387 | The new map is `ResetEdnum` of the old one. It fails and leaves the map alone on a map without cells. Nothing is logged |
| TraceSlits.TraceSlits.SetLrminx | pypit/traceslits.py:389-393 | On success the ranges are those of the left and right labels. Without right labels the left range is still stored before the error |
| TraceSlits.TraceSlits.IgnoreOrders | pypit/traceslits.py:294-300 | Stores the library's map and label ranges, and logs the stage |
| TraceSlits.TraceSlits.FitEdges | pypit/traceslits.py:274-292 | Fits one side over that side's label range, leaves the other side's fit alone, and logs `_fit_edges_left` or `_fit_edges_right` |
| TraceSlits.TraceSlits.ChkForLongslit | pypit/traceslits.py:245-265 | True exactly when `lmax == lmin` and `rmax == rmin`. Then the single left and right traces are the first fit of each side, evaluated over every row. Otherwise the traces are untouched |
| TraceSlits.TraceSlits.Synchronize | pypit/traceslits.py:395-403 | Stores the synchronised traces and fits. The traces pair up and span the rows. The stage is logged |
| TraceSlits.TraceSlits.Pca | pypit/traceslits.py:341-372 | Types `order` and `pixel` take the library's PCA result and log its name. Any other type keeps exactly the slits with no zero in either edge, in order, marks none as extrapolated, and logs nothing |
| TraceSlits.NoPcaKeeps | pypit/traceslits.py:346-352 | With no PCA, a slit is kept exactly when neither of its edges holds a zero. Kept slits keep their order and rows |
| TraceSlits.TraceSlits.TrimSlits | pypit/traceslits.py:405-425 | Fails exactly when there are slits but no rows, and then changes nothing. Otherwise keeps exactly the slits that are neither off the detector nor narrower than `fracpix`, in order, and logs the stage. `extrapord` is not trimmed |
| TraceSlits.TrimMaskLoop | pypit/traceslits.py:409-419 | The loop marks slit `o` exactly when `OffOrNarrow` holds for it |
| TraceSlits.TrimKeeps | pypit/traceslits.py:420-423 | The retained slits are exactly the unmarked ones, in increasing order, each with its rows |
| TraceSlits.TraceSlits.AddUserSlits | pypit/traceslits.py:212-226 | Resets the labels, then adds the user's edges to the reset map. It runs the fits, synchronisation, PCA and trim only when asked, and logs its own name last. If the reset fails nothing is logged |
| TraceSlits.TraceSlits.FinishTracing | pypit/traceslits.py:218-224 | The finishing stages log the two fits, the synchronisation, the PCA stage and the trim, in that order |
| TraceSlits.TraceSlits.FitBoth | pypit/traceslits.py:572-574 | The label ranges are stored and both sides are fitted over them. If the ranges do not exist, nothing is logged |
| TraceSlits.TraceSlits.SyncPcaTrim | pypit/traceslits.py:583-591 | Logs the synchronisation, PCA and trim. Only the trim can fail, and only on an image without rows |
| TraceSlits.TraceSlits.FindEdges | pypit/traceslits.py:521-532 | Logs the edge-map stage, the matching and the extra left/right edges. `user_set` is recorded once the edge map exists. A failure logs a prefix of that |
| TraceSlits.TraceSlits.Assign | pypit/traceslits.py:541-550 | Logs the assignment, then `_maxgap_close` when `maxgap` is set, then `_final_left_right` unless the user gave the slit |
| TraceSlits.TraceSlits.Crude | pypit/traceslits.py:555-560 | With `armlsd`, logs the crude tracing followed by the multi-slit sync |
| TraceSlits.TraceSlits.Detect | pypit/traceslits.py:521-560 | The detection phase logs `PlanDetect` of the options, or a prefix of it on failure |
| TraceSlits.TraceSlits.Adjust | pypit/traceslits.py:563-569 | Logs the user slits and the order removal that were asked for. Only the user slits can fail, and then nothing is logged |
| TraceSlits.TraceSlits.Conclude | pypit/traceslits.py:572-599 | A longslit returns its single traces with one all-false order flag, after logging the two fits. Otherwise it also logs synchronisation, PCA and trim, and returns the trimmed traces and `extrapord`. The traces pair up over all rows |
| TraceSlits.TraceSlits.Run | pypit/traceslits.py:485-599 | A successful run logs exactly `Plan` of its options (longslit or not). A failed run logs a prefix of the full plan. Returns the traces described under `Conclude` |
| TraceSlits.NamesDistinct | pypit/traceslits.py:183-425 | No two stages share a logged name, so the log of names determines the sequence of stages |
| TraceSlits.PlanLongslitPrefix | pypit/traceslits.py:576-599 | A longslit log is the full log minus the synchronisation, PCA and trim at its end |
| TraceSlits.PlanShape | pypit/traceslits.py:521-599 | Every run starts with the edge map, the matching and the left/right edges, assigns after the optional gap preparation, and ends with the right-side fit (longslit) or the trim |
| TraceSlits.RunLog | pypit/traceslits.py:521-599 | The three phases together log `Plan` |
| TraceSlits.RunLogEarlyErr | pypit/traceslits.py:521-569 | A failure before the fits leaves a log within the full plan |
| TraceSlits.RunLogFitErr | pypit/traceslits.py:572-591 | A failure in the fitting phase leaves a log within the full plan |
| EdgeLabels.MapGridSpec | pypit/traceslits.py:232-239 | A whole-map relabelling keeps the shape and relabels every cell independently |
| EdgeLabels.ResetEdnumDefined | pypit/traceslits.py:382-387 | The reset fails exactly on a map without cells (numpy's `max` of an empty array), and keeps the shape |
| EdgeLabels.ResetEdnumMoves | pypit/traceslits.py:382-387 | When every label is below `ednum`, left labels move down by `ednum - 1`, right labels move up by `ednum - 1`, and blanks stay |
| EdgeLabels.ResetEdnumFixed | pypit/traceslits.py:382-383 | Once some label has reached `ednum`, the reset changes nothing |
| EdgeLabels.ResetKeepsSign | pypit/traceslits.py:384-387 | The reset never turns a left edge into a right edge or back |
| EdgeLabels.Relabel2Pointwise | pypit/traceslits.py:384-387 | Lowering the negatives and then raising the positives moves every label away from zero by the same amount |
| EdgeLabels.CollapseLeftEffect | pypit/traceslits.py:232-233 | Every label at or below `-2*ednum` becomes `-ednum`, and every other cell keeps its label |
| EdgeLabels.CollapseLeftBound | pypit/traceslits.py:232-233 | Afterwards no cell is left at or below `-2*ednum` |
| EdgeLabels.CollapseRightEffect | pypit/traceslits.py:238-239 | Every label at or above `2*ednum` becomes `ednum`, and every other cell keeps its label |
| EdgeLabels.MaxgapShiftEffect | pypit/traceslits.py:313-317 | On a non-empty map, right edges and blanks are untouched. Every left label rises above the largest label, and distinct labels stay distinct |
| EdgeLabels.ShiftFacts | pypit/traceslits.py:315 | With every label between `mn` and `mx`, a shift by `1 + mx - mn` lifts left labels above `mx`, leaves the others alone and keeps distinct labels distinct |
| EdgeLabels.AllBounds | pypit/traceslits.py:315 | A non-empty map has a largest and a smallest label, both stored, with every cell between them |
| EdgeLabels.MaxWhereSpec | pypit/traceslits.py:389-393 | `np.max` over the selected cells exists exactly when a cell is selected. It is then a stored selected label, at least every selected label |
| EdgeLabels.MinWhereSpec | pypit/traceslits.py:389-393 | `np.min` over the selected cells exists exactly when a cell is selected. It is then a stored selected label, at most every selected label |
| EdgeLabels.LeftExtremes | pypit/traceslits.py:390-391 | The left labels run from their minimum to their maximum, which exist exactly when a left label does |
| EdgeLabels.RightExtremes | pypit/traceslits.py:392-393 | The right labels run from their minimum to their maximum, which exist exactly when a right label does |
| EdgeLabels.LabelRangesEffect | pypit/traceslits.py:389-393 | The ranges exist exactly when the map has a left and a right label. Then every left label lies in `[-lmax, -lmin]` and every right label in `[rmin, rmax]`, with all four bounds attained |
| EdgeLabels.LongslitIff | pypit/traceslits.py:248 | For the label ranges of an edge map, the longslit test `lmax+1-lmin == 1 and rmax+1-rmin == 1` holds exactly when every left edge of the map carries one and the same label, and so does every right edge |
| ArSetup.DetKeyInjective | pypit/arsetup.py:150 | The 99 detector keys `01`…`99` are pairwise distinct |
| ArSetup.DetMatchSelf | pypit/arsetup.py:156-157 | A detector dict matches itself |
| ArSetup.DetFromFirstFit | pypit/arsetup.py:151-162 | Searching from candidate `k0`, the key returned is candidate `k`, and every candidate before it is used and does not match. The dict is stored only under an unused key. A used key is returned only when its dict matches, or when it is the last candidate `99` |
| ArSetup.DetSetupFirstFit | pypit/arsetup.py:135-164 | `det_setup` returns the first candidate key that is unused or whose dict equals the new one. It adds the dict only under an unused key |
| ArSetup.DetSetupKeeps | pypit/arsetup.py:151-162 | Existing detector entries are never modified, and at most the returned key is added |
| ArSetup.DetFromIdempotent | pypit/arsetup.py:151-162 | A search from `k0` repeated on its own result returns the same key and changes nothing |
| ArSetup.DetSetupIdempotent | pypit/arsetup.py:135-164 | Calling `det_setup` again with the same dict returns the same key and leaves the table as it is |
| ArSetup.DetFromErr | pypit/arsetup.py:156-157 | The search fails only when a stored dict has a key the new dict lacks (`KeyError`) |
| ArSetup.BuildCbset | pypit/arsetup.py:84-92 | The loop builds the new calibration set: the sorted file names of each frame type |
| ArSetup.NewCbset | pypit/arsetup.py:84-92 | The new set has exactly the six frame types as keys |
| ArSetup.SortNamesSpec | pypit/arsetup.py:88-89 | Each list is sorted and is a permutation of the exposure's file names |
| ArSetup.CalibNameInjective | pypit/arsetup.py:78-82 | The 104 candidate names `aa`…`dz` are pairwise distinct |
| ArSetup.CalibFromFirstFit | pypit/arsetup.py:114-132 | The search stops at the first name it does not pass over. If that name is used and its set matches with the science frames popped, the result is a `KeyError`. Otherwise the set is stored under that name when it is unused. When all 103 names are used and none raises, `dz` is returned and nothing is stored. The match compares with the default set's `cent` list |
| ArSetup.CalibFirst | pypit/arsetup.py:94-97 | The first exposure founds the default set `aa` |
| ArSetup.CalibSame | pypit/arsetup.py:99-106 | A set equal to the default set list by list returns `aa` and changes nothing |
| ArSetup.CalibSciOnly | pypit/arsetup.py:107-111 | A set differing only in its science frames returns `aa`. It appends those frames to the default set unless the first one is already there |
| ArSetup.CalibNewSet | pypit/arsetup.py:113-132 | A set differing in more than the science frames is stored, with only its differing lists, under the first unused name after `aa`. The exception is a `KeyError` when a used name before it matches after the science frames were popped |
| ArSetup.CalibKeepsOthers | pypit/arsetup.py:94-132 | No set other than `aa` is ever modified, and at most the returned name is added |
| ArSetup.CalibKeepsDefault | pypit/arsetup.py:99-111 | The default set `aa` only gains science frames, at the end of its list |
| ArSetup.CalibRefile | pypit/arsetup.py:113-132 | The same exposure is filed again after its differing lists went under a new name. If those lists hold no science frames and all equal `aa['cent']`, the call raises `KeyError`. Otherwise a successful call never returns that name again, short of `dz` |
| ArSetup.CalibSciFiled | pypit/arsetup.py:113-132 | When the science frames are among the differing lists, the match test never raises `KeyError`. When some name after `aa` is unused, the differing lists are filed under the name returned |
| ArSetup.CalibStaleKeyError | pypit/arsetup.py:119-130 | With `aa = {arcs:[a], bias:[b], trace:[], flat:[], sci:[s], cent:[c]}`, an exposure whose arcs and bias are `[c]` is filed as `ab`, and filing the same exposure again raises `KeyError` |
| ArSetup.CalibKeyName | pypit/arsetup.py:78-132 | The calibration key returned is one of the 104 candidates |
| ArSetup.ConfigMatchSelf | pypit/arsetup.py:237-265 | A configuration dict matches itself |
| ArSetup.ConfigOfMatch | pypit/arsetup.py:224-265 | Two exposures' configurations compare without error exactly when each field is comparable. They match exactly when the dispersers, dichroics and slits agree (`np.isclose` for floats) |
| ArSetup.ConfigMatchFields | pypit/arsetup.py:259-265 | A three-field configuration matches when each field does, and errs when any field errs |
| ArSetup.DisperserMatch | pypit/arsetup.py:261-263 | The disperser field matches when both its name and its angle do |
| ArSetup.SlitMatch | pypit/arsetup.py:261-263 | The slit field matches when the decker, slit width and slit length all do |
| ArSetup.FirstMatchSpec | pypit/arsetup.py:257-268 | The configuration reused is the first matching one in insertion order. When none is found, none matches |
| ArSetup.FindSubOccurs | pypit/arsetup.py:274 | `str.index` returns a position where the substring occurs |
| ArSetup.FindSubFirst | pypit/arsetup.py:274 | `str.index` returns the first such position |
| ArSetup.NextLetterFresh | pypit/arsetup.py:273-274 | The letter after the largest configuration name is not yet a configuration name |
| ArSetup.NextLetterAbove | pypit/arsetup.py:273-274 | The letter after a maximum sorts after every name up to that maximum |
| ArSetup.NextLetterSucc | pypit/arsetup.py:274 | After a single letter before `Z` comes the next letter |
| ArSetup.ChooseConfigSpec | pypit/arsetup.py:246-276 | An empty dictionary takes `A` or the given name. Otherwise the first matching configuration is reused, or else the next letter is taken, which is new. With `must_exist` there is no new configuration |
| ArSetup.InstrSpecStore | pypit/arsetup.py:246-288 | Once the configuration is chosen, `instr_setup` adds it if it is new, then runs the detector and calibration steps on its entry |
| ArSetup.FiledOutcome | pypit/arsetup.py:276-288 | The outcome is the chosen entry after the detector and calibration steps, under the insertion order |
| ArSetup.InstrSpecKeeps | pypit/arsetup.py:246-288 | Only the chosen configuration changes. A new one is appended to the insertion order with the new configuration dict, and an old one keeps its dict |
| ArSetup.KeepsOrdered | pypit/arsetup.py:254-276 | The insertion order stays a duplicate-free list of the keys |
| ArSetup.StoreKeeps | pypit/arsetup.py:278-284 | The detector and calibration steps change only the chosen entry, not its configuration dict |
| ArSetup.InstrSpecEarlyErr | pypit/arsetup.py:198-208 | A forced setup, an exposure without arcs, or a failed configuration choice leaves the dictionary unchanged. A forced setup returns the forced ID, and the other two return an error |
| ArSetup.CalibKeyPlain | pypit/arsetup.py:78-132 | A calibration key holds no `_` and is in the table afterwards |
| ArSetup.DetKeyPlain | pypit/arsetup.py:150-164 | A detector key holds no `_` and is in the table afterwards |
| ArSetup.StoreOk | pypit/arsetup.py:278-288 | The detector and calibration steps succeed with the ID `config_det_calib` of the keys they found |
| ArSetup.StoreId | pypit/arsetup.py:286-288 | The ID splits on `_` into the configuration, a stored detector key and a stored calibration key (or `--`) |
| ArSetup.InstrSpecId | pypit/arsetup.py:246-288 | The setup ID names the chosen configuration, a detector entry and a calibration set of that configuration |
| ArSetup.FirstMatchBases | pypit/arsetup.py:257-268 | The search looks only at the stored configuration dicts |
| ArSetup.FirstMatchSkip | pypit/arsetup.py:257-268 | Configurations known not to match can be skipped |
| ArSetup.ChooseAgain | pypit/arsetup.py:246-288 | Filing is stable: afterwards the same configuration dict chooses the same, now existing, configuration |
| ArSetup.Rechoose | pypit/arsetup.py:246-276 | After any filing that keeps the other entries, the same configuration dict picks the same key again, as an existing key |
| ArSetup.RechooseNew | pypit/arsetup.py:270-276 | A newly appended configuration is found again by its own dict |
| ArSetup.NoMatchExtend | pypit/arsetup.py:257-268 | Appending a configuration keeps the earlier ones non-matching |
| ArSetup.ChooseLast | pypit/arsetup.py:257-268 | When only the last configuration can match and it holds the same dict, it is chosen |
| ArSetup.RechooseOld | pypit/arsetup.py:257-268 | A reused configuration is found again when the stored dicts are unchanged |
| ArSetup.InstrConfig.constructor | pypit/arsetup.py:254-255 | A new entry holds the configuration dict and no detector or calibration entries |
| ArSetup.InstrConfig.DetSetup | pypit/arsetup.py:135-164 | `det_setup` on the entry: the returned key and the new detector table are `DetSpec` of the old table |
| ArSetup.InstrConfig.CalibSet | pypit/arsetup.py:63-132 | `calib_set` on the entry: the returned name and the new table are `CalibSpec` of the old table and the exposure's set, including the `KeyError` of the stale match test. An error leaves the table unchanged |
| ArSetup.InstrConfig.Step | pypit/arsetup.py:278-288 | The detector step, then the calibration step or `--`. Stops at the first error |
| ArSetup.SetupDict.constructor | pypit/arsetup.py:248 | A new setup dictionary is empty |
| ArSetup.SetupDict.Choose | pypit/arsetup.py:246-276 | The configuration loop returns `ChooseConfig` of the dictionary |
| ArSetup.SetupDict.InstrSetup | pypit/arsetup.py:167-288 | `instr_setup`: the ID returned and the new dictionary are `InstrSpec` of the old dictionary, and the dictionary stays well formed. An error from `calib_set`, including the `KeyError` of its match test, is the error of the call |
| ArSetup.SetupDict.File | pypit/arsetup.py:246-288 | Filing under the chosen key gives `InstrSpec`'s outcome |
| ArSetup.SetupDict.AddConfig | pypit/arsetup.py:275-276 | A new configuration is appended to the insertion order with an empty entry |
| ArSetup.SetupDict.Store | pypit/arsetup.py:278-284 | The steps on the entry change only that entry |
| SortedFile.LoadSorted | pypit/arsetup.py:391-432 | The line-by-line reader returns `LoadSortedSpec` of the file's lines |
| SortedFile.LoadSortedSpec | pypit/arsetup.py:409-412 | A file that does not start with `####` is rejected. A successful read has one file table per setup-line list |
| SortedFile.ReadSetupLines | pypit/arsetup.py:417-424 | Reads up to the first `#-` line inclusive and records the names of the `Setup` lines. If there is no such line, it reports that |
| SortedFile.ReadDataFiles | pypit/arsetup.py:426-430 | Reads up to the first `##` line inclusive. If there is no such line, it reports that |
| SortedFile.SetupLineName | pypit/arsetup.py:420-421 | The `Setup X` line `write_sorted` writes yields the name `X` |
| SortedFile.LoadWritten | pypit/arsetup.py:391-477 | Reading back a file laid out as `write_sorted` writes it gives each setup's name, its setup lines and its file table, in order |
| GroupDict.BuildGroupDict | pypit/arsetup.py:481-523 | The loop over science exposures returns `GroupSpec` |
| GroupDict.AddExposure | pypit/arsetup.py:499-521 | One round of the loop over science exposures |
| GroupDict.NewConfig | pypit/arsetup.py:503-509 | A new configuration gets its initial lists |
| GroupDict.FillExposure | pypit/arsetup.py:511-521 | Files one exposure's frames of every type |
| GroupDict.AddFrames | pypit/arsetup.py:514-521 | Files the frames of one type of one exposure |
| GroupDict.GroupConfigs | pypit/arsetup.py:498-509 | A letter is a configuration of the result exactly when some setup ID starts with it |
| GroupDict.GroupFiles | pypit/arsetup.py:511-518 | A configuration's list for each frame type holds the names of that type's frames from its exposures, each once, in order of first appearance |
| GroupDict.GroupStdTargets | pypit/arsetup.py:516-519 | Each standard file filed adds exactly one standard target |
| GroupDict.GroupSciTargets | pypit/arsetup.py:520-521 | The science target list repeats each exposure's science target once per science frame index, duplicates included |
| GroupDict.GroupFailures | pypit/arsetup.py:503-513 | A `failures` list is created for each configuration but never filled |
| GroupDict.GroupNoTypes | pypit/arsetup.py:503-509 | With no frame types a configuration gets no lists, not even the target lists |
| GroupDict.ConfigView | pypit/arsetup.py:498-521 | Exposures of other configurations leave a configuration's dictionary alone |
| Load.SpecObjLongslit | pypeit/core/load.py:108-116 | A parsed order is at least `-1`. It is `-1` exactly when the second-to-last field lacks the `ORDER` tag |
| Load.SpecObjOrderOf | pypeit/core/load.py:108-110 | A name `obj-ORDERnnnn-det` reads back as order `n` |
| Load.SpecObjTwoFields | pypeit/core/load.py:108-116 | In a name `obj-ORDERnnnn` the second-to-last field is the object, so it reads as longslit |
| Load.SpecObjNoDash | pypeit/core/load.py:108-109 | A name without a dash has no second-to-last field (`IndexError`) |
| Load.SelectKeeps | pypeit/core/load.py:103-118 | Loading fails exactly when some non-primary name has no readable order. Otherwise the extensions kept equal `KeptNames`: the non-primary names of the requested order, in file order and with their repetitions |
| Load.LoadSpecObjs | pypeit/core/load.py:103-118 | The HDU loop returns `SelectSpec` |
| Load.SlitIdOf | pypeit/core/load.py:255 | The second field of `obj-ORDERnnnn-det` reads back as `n` |
| Load.OrderIds | pypeit/core/load.py:252-255 | The loop reads one ID per extension after the primary one, or stops at the first failure |
| Load.CollectOk | pypeit/core/load.py:252-255 | Collecting succeeds exactly when every ID reads, and then keeps them in order |
| Load.OrderVec | pypeit/core/load.py:261-262 | The orders are the distinct IDs, each once, in order of first appearance |
| Load.NOrder | pypeit/core/load.py:258-265 | Echelle data has as many orders as distinct IDs, at least one when there is an extension. Other data has one |
| Load.PickExt | pypeit/core/load.py:173-188 | Only `OPT` and `BOX` are accepted. The extension picked is the last one after the primary whose name contains the ID, and it fails exactly when there is none |
| Load.MaskEdgesInPlace | pypeit/core/load.py:196-198 | Without `nmaskedge` the mask is unchanged. Otherwise the array becomes `MaskEdges` of its old contents |
| Load.ClearSlice | pypeit/core/load.py:197-198 | `mask[a:b] = False` on the array, with Python's slice bounds |
| Load.EdgesPositive | pypeit/core/load.py:196-198 | A positive `n` masks exactly the first `n` and the last `n` pixels |
| Load.EdgesZero | pypeit/core/load.py:196-198 | `nmaskedge = 0` masks every pixel, because `mask[-0:]` is the whole mask |
| Load.Reshape | pypeit/core/load.py:370 | The reshape into `norder` rows succeeds exactly when the extension count divides evenly |
| Load.SpecOrderFirst | pypeit/core/load.py:369-376 | The extension found is a real one, and the first to hold its name |
| Load.Locate | pypeit/core/load.py:370-374 | Succeeds exactly when the object column and the order row are valid Python indices |
| Load.LocateAt | pypeit/core/load.py:370-374 | With distinct names, row `r` and column `c` is extension `r*ncol + c + 1` |
| Load.SpecOrderIndex | pypeit/core/load.py:345-376 | With distinct names, object `k` of order `o` is extension `o*ncol + k` |
| Load.SpecOrderLastObject | pypeit/core/load.py:370-371 | Object number 0 reads column `-1`, the last object of the order |
| Load.ObjNameNumber | pypeit/core/load.py:371 | `int(objid[3:])` of `OBJnnnn` is `n` |
| Load.ObjIds | pypeit/core/load.py:413-418 | No ID means the default for every file, and a single ID is used for every file. Any other count must equal the number of files |
| Load.NOrders | pypeit/core/load.py:423-426 | The order count is the `ECHORDER` span. It fails exactly when the first and last extensions share an order |
| Load.AllOrdersLoaded | pypeit/core/load.py:431-437 | Loading all orders gives `norder` extensions, order `iord` read by `load_spec_order` |
| Load.EchGroups | pypeit/core/load.py:429-443 | Each file contributes its group of loads, in file order |
| Load.EchAllOrders | pypeit/core/load.py:431-437 | Without an order, every file contributes all its orders in turn |
| Load.EchOneOrder | pypeit/core/load.py:438-443 | With an order, every file contributes exactly that order |
| Load.EchSingleOrder | pypeit/core/load.py:423-426 | A file with a single order is not Echelle data |
| Load.EchOrderTooLarge | pypeit/core/load.py:438-439 | An order beyond the last one is refused |
| Load.EchLoadSpec | pypeit/core/load.py:400-443 | `ech_load_spec`, up to the collation, returns `EchSpec` |
| Load.LoadFiles | pypeit/core/load.py:429-443 | The loop over files collects each file's loads, or the first failure |
| Load.LoadAllOrders | pypeit/core/load.py:431-437 | The inner loop collects the extension of every order |
| Load.LoadFile | pypeit/core/load.py:431-443 | The body of the loop over files |

## Left out

- The numerical routines of the slit-tracing library are not modelled: edge detection, matching, slit assignment, gap closing, crude tracing, synchronisation, PCA, user edges and polynomial fitting. They are fields of `Artrace` about which only the shapes of traces are assumed. So the model proves the driver's order of stages, its bookkeeping and its own relabellings, not the quality of any trace.
- `make_binarr`, `show`, `write`, `from_files`, `_remove_slit` and `__repr__` are not modelled. They are image smoothing, display and file I/O. The constructor only logs `make_binarr`.
- Floating-point traces are `real`. `func_val` in `chk_for_longslit` is the library's evaluation of the first fit of each side. `fracpix` is given as the integer `int(fracignore * ncol)`.
- The pixel-location arrays and the side results of `_fit_edges` (`lnmbrarr`, `ldiffarr`, `lwghtarr` and their right counterparts) are not modelled. Only the PCA and synchronisation routines consume them, so they are absorbed into those routines.
- `np.isclose` is modelled as `|a - b| <= 1e-8 + 1e-3 * |b|` on reals. NaN and infinity are not modelled.
- `settings.get_dnum` is taken to be two-digit zero-padded formatting. The `settings` module is not part of this model, and neither is the amplifier count it supplies.
- The header lookups of `instr_setup` (`fitsdict[...]`) are given as an `ArcHeader` value. `naxis0` and `naxis1` are read but unused in the source, so they are not modelled.
- SortedFile.LoadSorted: a file that ends inside a setup or inside a file table makes the source read empty lines forever. The model returns an error there instead of not terminating.
- `write_sorted`, `write_setup`, `write_calib`, `load_setup`, `get_setup_file` and `dummy_setup_dict` are file I/O and are not modelled. The round trip `LoadWritten` is stated against the line layout `write_sorted` produces. YAML lines and table lines are taken as given strings.
- Only ASCII whitespace and ASCII digits are modelled in `strip` and `int()`. `int()` also does not accept underscores between digits in the model.
- In `pypeit/core/load.py`, FITS reading, `XSpectrum1D`, the flux and wavelength cuts of `load_spec_order`, `collate`, and the array filling of `load_1dspec_to_array` are not modelled. The model covers which extensions are read, in what order, and the edge mask. `load_extraction`, `load_ordloc`, `load_1dspec`, `load_std_trace`, `load_sens_dict`, `waveids` and `load_multiext_fits` are plain file reads and are not modelled.
- GroupDict.BuildGroupDict: the inputs are taken to be well formed (`WellFormed`): every setup ID is non-empty, every exposure has a first science index, `settings.spect` has an `index` entry for every frame type that is filled, and every index lies inside the file table. The source raises `IndexError` or `KeyError` otherwise, and those error paths are not modelled. Its callers build these inputs from the same file table.
- Load.LoadSpecObjs: the header cards and data columns copied into each `SpecObj` are not modelled, only which extensions are loaded.
- The `verbose` messages and `msgs.info` logging are output only and are left out.
