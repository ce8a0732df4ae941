# Verified model of the PQL trace viewer's algorithms

PQL is a viewer for seismic traces. This project models the parts of it that compute something
and proves, in Dafny, that they compute what their comments and callers expect:

- the FFT family of `src/fftsubs.c`: the complex transform on split arrays and on one interleaved
  array, the transform of real samples by half-length packing, and its inverse;
- the paging of the trace list in trace mode and in gather mode, with the memory that holds the
  samples of the visible page (`src/data.c`, `src/gtk_events.c`);
- the tick generators of the x and y axes, linear and logarithmic (`src/axes.c`);
- the printer and the parser of the saved sort settings (`src/defaults.c`);
- the in-place synchronisation of the header table's columns with the display flags
  (`src/gtk_data.c`);
- the extrema of a magnified trace, cached while the window only grows (`src/magnify.c`);
- the automatic gain control with a sliding window (`src/agc_py.c`);
- the zoom and scroll keys of the magnify screen (`src/gtk_events.c`).

Floating point numbers are exact reals, complex numbers are pairs. The sines the transforms compute
are an input table with laws (`Roots.Lawful`): half-angle and full-angle sines of pi/2^k, tied by
the double angle formulas and the quadrant of the angle. `Roots.TablesUnique` shows that the laws
fix every entry. `Root(t, sgn, m)` is then e^(sgn * 2 pi i / 2^m). The powers of ten of the axes are
exact.

Code that works in place is modelled in place: arrays for the transforms, the gain and the column
array, classes for the viewer, the sort settings, the header table, the magnified trace and the
magnify window. Each method's contract equates the new state with a function on values, and the
theorems are about those functions: the discrete Fourier transform as a sum, runs of buttons, keys
and refreshes.

## Files

| file | content |
|---|---|
| `Complex`, `Roots`, `Dft`, `Inversion` | complex arithmetic, roots of unity, the DFT and its inverse |
| `Bits`, `Arithmetic` | bit reversal, division with remainder, powers of ten |
| `Butterflies`, `Sweeps` | the radix-2 algorithm on values, and what the arrays hold inside its loops |
| `Fft`, `Cfour`, `RealSpectrum`, `Cfftr`, `FftLaws` | the four transforms, and their laws on arrays |
| `Paging`, `Overlaps`, `Gathers`, `Residency`, `Viewer` | paging on values, unaligned starts, gather groups, memory, the viewer object |
| `Ticks`, `AxisMeaning`, `Axes` | the table of powers of ten and tick kinds, what an axis has to show in plain numbers, the two axis generators |
| `SortText`, `SortFormat`, `SortSettings` | printer and parser of sort criteria, the text form character by character, the settings object |
| `HdrColumns`, `Magnify`, `Agc`, `ZoomScroll` | one component each |

## What was found

- `cfftr` and `cfftri` do not work for n = 2: the statement that conjugates the middle frequency
  hits the last one, and the round trip exchanges the two samples. The forward result is the
  spectrum, and the round trip scales by n/2, if and only if n >= 4 or the two samples are equal
  (`Cfftr.Forward`, `Cfftr.RoundTrip`).
- Trace mode keeps its three groups adjacent if and only if the start position is a multiple of the
  page size (`Paging.TraceModeSafety`). From a start that is off by r, stepping back to the first page
  and forward again shows the group of position r at the position of the second page
  (`Overlaps.RunReached`). After a restart or a new page size, from any tracked memory, memory follows
  the page in every run of the buttons if and only if the start is a multiple of the page size p, or
  all traces from r up to p and from r + p up to 2p are sticky (`Residency.ResidencySafety`). The
  viewer does start from other positions (src/gtk_mouse.c:98, src/gtk_events.c:2363).
- Gather mode works if and only if INITGROUP is reached with startRec equal to 0
  (`Gathers.GatherModeSafety`).
- The full scan of the magnify screen leaves out its last sample, and a later zoom-out starts after
  it, so that sample is never looked at. After a full scan and any chain of zoom-outs in which no
  display adjustment fires, the cached values are the extrema of the whole window if and only if that
  sample is gap filler or its value lies between those of two other counted samples of the window
  (`Magnify.SkippedSample`; `Magnify.SkippedExample` is a run that misses the greatest sample).
- Every run of zoom and scroll keys stays inside the limits if and only if zoomFactor is at most 33
  (`ZoomScroll.ZoomFactorLimit`); the controls allow 10 to 30.
- `agc` moves both of its pointers behind the trace before it starts (src/agc_py.c:79-80). As it
  stands no sample of the trace is read or gained (`Agc.GainAsWritten`). All cells the loops touch
  belong to the trace if and only if the pointers start at its first cell and the window is even
  (`Agc.TouchesTraceOnly`). `Agc.Gain` is the intended code, with the pointers at the first cell.
- A logarithmic axis shows every c * 10^k after its start x0 and up to its end (plus eps) with the
  right kind when 10^-36 <= x0 < 10^39. A y axis may start lower; it is complete if and only if no
  c * 10^k lies in its range, because it draws nothing below 10^-36 and 10^-36 itself as a middle tick.
  From 10^39 on an axis steps by 10^38 only; it is complete if and only if every multiple of 10^38 in
  its range consists of one digit from 2 to 9 and zeros (`Axes.LogCompleteExactly`, `Axes.LowExample`,
  `Axes.BeyondExample`). The major ticks are the powers of ten if and only if 10^-36, for a start
  below it, and powers of ten behind the table are not in the range (`Axes.KindsExactly`).
- The axes read the table of powers of ten outside its bounds for valid calls. A linear x axis stays
  inside if and only if it is longer than 10^-36, a linear y axis if and only if longer than 10^-38; so
  both leave it for x0 == xn. A logarithmic axis stays inside if and only if it does not start below
  10^-36 (x) or 10^-38 (y), and, when it starts below 10^39, ends below 10^39 with its eps
  (`Axes.XAxis`, `Axes.YAxis`).

Where code and comment differ the model follows the code: one division or less means ten on the x
axis (the comment at src/axes.c:26 says zero or less, which is what the y axis does), and the
logarithmic axis starts from the largest power of ten that is not above its start (the comment at
src/axes.c:140 says the smallest above it).

## Model

| member | source | states |
|---|---|---|
| Roots.TablesUnique | src/fftsubs.c:261-266 | the laws of the sine table determine every entry: two lawful tables are equal |
| Roots.Extend | src/fftsubs.c:261-266 | a lawful table can be extended by one entry whenever the square roots the entry consists of exist |
| Roots.RootSquare | src/fftsubs.c:310-313 | the twiddle step of a stage is the square of the next stage's |
| Roots.HalfTurn | src/fftsubs.c:310-313 | the n-th root's n/2-th power is -1 |
| Bits.RevInvolution | src/fftsubs.c:290-304 | reversing the bits of an index twice gives the index back |
| Bits.RevCarry | src/fftsubs.c:299-302 | adding one carries through the reversed counter from its top bit |
| Sweeps.SwapStep | src/fftsubs.c:290-304 | one turn of the swap loop exchanges i and rev(i) the first time either is met, and does nothing the second time |
| Sweeps.BitReversedTwice | src/fftsubs.c:33-53 | the bit-reversal permutation is its own inverse |
| Sweeps.SweepStep | src/fftsubs.c:322-332 | one butterfly changes exactly the two elements the stage prescribes |
| Sweeps.PartnerInRange | src/fftsubs.c:322-325 | every butterfly partner lies inside the array |
| Butterflies.PolySplit | src/fftsubs.c:308-341 | a sum of powers of z splits into even part in z^2 plus z times odd part in z^2 |
| Butterflies.BranchAt | src/fftsubs.c:290-304 | the subsequence of a block is every 2^(m-k)-th sample from the bit reversal of the block number |
| Butterflies.StageInvariant | src/fftsubs.c:308-341 | after k stages element s of block b is the 2^k-point transform of the block's subsequence at frequency s |
| Butterflies.StagesCompute | src/fftsubs.c:290-341 | bit reversal followed by all stages is the discrete Fourier transform |
| Dft.TermsIsPoly | src/fftsubs.c:179-187 | the DFT sum at frequency k is the polynomial of the samples at w^k |
| Inversion.Orthogonality | src/fftsubs.c:310-313 | the powers of a root of unity other than one sum to zero |
| Inversion.TransformInverse | src/fftsubs.c:17-20 | transforming with a root and then with its conjugate multiplies every element by n, for every power of two |
| Fft.Increment | src/fftsubs.c:299-302 | j goes from rev(i) to rev(i + 1) |
| Fft.ReverseOrder | src/fftsubs.c:290-304 | the swap loop leaves the bit-reversed sequence in both arrays |
| Fft.Butterfly | src/fftsubs.c:324-330 | elements i and j become a + c b and a - c b |
| Fft.ButterflyStage | src/fftsubs.c:310-340 | one stage applied to the arrays, with the twiddle recurrence giving the powers of w |
| Fft.Compute | src/fftsubs.c:200-357 | status 0 exactly for direction 1 or -1 and a power of two from 2 on, then the first nfft elements hold the DFT with the sign of the direction and the rest stay; otherwise -1 and nothing changed |
| Cfour.Increment | src/fftsubs.c:44-52 | i3rev goes from 2 rev(i) + 1 to 2 rev(i + 1) + 1 |
| Cfour.ReverseOrder | src/fftsubs.c:33-53 | the swap loop on the interleaved array is the bit-reversal permutation and leaves the rest alone |
| Cfour.ButterflyStage | src/fftsubs.c:57-79 | one stage on the interleaved array equals the same stage function as on split arrays |
| Cfour.Compute | src/fftsubs.c:24-82 | the first n pairs become their DFT with the sign isign, the rest of the array is unchanged |
| FftLaws.FftRoundTrip | src/fftsubs.c:200-357 | fft with one direction and then the other multiplies every element by n |
| FftLaws.CfourRoundTrip | src/fftsubs.c:17-19 | cfour with one sign and then the other multiplies every element by n |
| FftLaws.LayoutsAgree | src/fftsubs.c:24-82 | cfour with sign s and fft with direction -s leave the same numbers |
| FftLaws.RealRoundTrip | src/fftsubs.c:19-20 | cfftr and then cfftri multiplies every one of the n samples by n/2 for n >= 4 and exchanges the two samples for n = 2 |
| RealSpectrum.CombineTwice | src/fftsubs.c:115-125 | the untangling of two frequencies undoes itself because the factor has modulus one |
| RealSpectrum.TangleUntangled | src/fftsubs.c:131-173 | tangling an untangled packed transform gives it back |
| RealSpectrum.UntangleTangled | src/fftsubs.c:131-173 | a spectrum survives tangling and untangling exactly when its two end values are real |
| RealSpectrum.UntangledIsSpectrum | src/fftsubs.c:84-129 | untangling the half-length transform of the packed samples yields their DFT at the frequencies 0 to n/2 |
| Cfftr.TwistPair | src/fftsubs.c:111-125 | the loop body untangles frequency i - 1 and its mirror image |
| Cfftr.Twist | src/fftsubs.c:102-127 | the loop untangles all frequencies but the two ends |
| Cfftr.SplitEnds | src/fftsubs.c:94-99 | the statements before the loop set the two end frequencies and conjugate the middle one |
| Cfftr.Forward | src/fftsubs.c:84-129 | the first n + 2 numbers become the values the code computes, which are the spectrum of the n samples exactly when n >= 4 or the two samples are equal |
| Cfftr.MergeEnds | src/fftsubs.c:138-142 | the statements before the loop of the inverse |
| Cfftr.Backward | src/fftsubs.c:131-176 | the first n numbers become the inverse transform of the tangled spectrum, the numbers behind them stay, but for the sign of x[2] when n = 2 |
| Cfftr.RoundTrip | src/fftsubs.c:19-20 | cfftri of cfftr scales by n/2 exactly when n >= 4 or the two samples are equal |
| Paging.NextAtBoundary | src/data.c:720-730 | NEXT from a page boundary leads to the state of the next page boundary |
| Paging.PrevAtBoundary | src/data.c:708-718 | PREVIOUS from a page boundary leads to the state of the page boundary before |
| Paging.RunAtBoundary | src/gtk_events.c:138-167 | every run of guarded buttons from a page boundary ends at a page boundary |
| Paging.TraceModeSafety | src/data.c:558-600 | previous, current and next stay adjacent pages at startRec in every run exactly when the start is a multiple of the page size |
| Paging.NextPrevRestores | src/data.c:708-730 | NEXT then PREVIOUS, and PREVIOUS then NEXT, restore the whole state |
| Paging.PagingShowsAll | src/data.c:558-600 | paging to the end shows every trace exactly once, in list order |
| Overlaps.PressReached | src/data.c:706-730 | a button leads from any of the five kinds of screens a start can lead to, to another of them |
| Overlaps.RunReached | src/data.c:558-600 | every run of buttons, from an aligned start or one that is off by r, ends in one of these kinds of screens |
| Overlaps.OffBack | src/data.c:706-718 | from an unaligned start stepping back ends on the first page with the group of position r as the next one |
| Gathers.GatherExact | src/data.c:626-640 | a gather of the time-sorted list is exactly the traces within the spread of its first |
| Gathers.GathersPartition | src/data.c:646-668 | the gathers together hold every trace of the list once |
| Gathers.CutsEnumerate | src/data.c:646-668 | the k-th cut position begins the k-th gather, and there are no others |
| Gathers.CutIsSum | src/data.c:720-730 | startRec is the number of traces in the gathers before the current one |
| Gathers.GatherRun | src/data.c:681-732 | every run of buttons keeps history, previous, current and next consecutive gathers, and moves as the guards say |
| Gathers.GatherModeSafety | src/data.c:603-644 | INITGROUP starts such a run exactly when startRec is 0 |
| Gathers.RunShowsGathers | src/data.c:603-668 | every run of buttons shows three consecutive gathers: the traces of each start within the spread of its first, the next trace does not, and each is sorted by sensor |
| Gathers.NextShowsAll | src/data.c:720-730 | pressing NEXT shows one gather after the other, and these hold every trace once |
| Residency.LoadHolds | src/data.c:262-338 | a redraw of a group with the page's non-sticky traces leaves exactly these in memory |
| Residency.MemoryHoldsPage | src/data.c:415-439 | so does every run of page turns, restarts and page size changes, aligned or with sticky traces wherever an unaligned start shows the wrong ones |
| Residency.ResidencySafety | src/data.c:415-439 | from any tracked memory, after a restart or a new page size memory follows the page in every run of the buttons exactly when the start is aligned or the traces that are shown wrong are all sticky |
| Residency.StickyStays | src/data.c:415-439 | sticky traces keep their samples in every run, and the traces on the screen have theirs |
| Viewer.TraceViewer.CollectPage | src/data.c:593-599 | the loop collects up to numPlots traces from a position |
| Viewer.TraceViewer.CollectGather | src/data.c:654-668 | the loop collects the greedy gather from a position, sorted by sensor |
| Viewer.TraceViewer.DispList | src/data.c:551-679 | refills one of the three groups in either mode |
| Viewer.TraceViewer.MakeDispList | src/data.c:681-732 | INITGROUP, NEXTGROUP and PREVGROUP on the viewer's fields |
| Viewer.TraceViewer.NextTrace | src/gtk_events.c:138-167 | a button does nothing without a group to go to; otherwise the groups move by one, startRec by the size of the group left behind, and the new group is the next part of the list |
| Viewer.TraceViewer.MakeList | src/data.c:415-439 | frees the old page's non-sticky traces outside the new page, and nothing else |
| Viewer.TraceViewer.ReadData | src/data.c:251-338 | afterwards the current group is in memory, nothing else was read, and what was freed is a non-sticky trace of the last page that is outside the new one |
| Viewer.TraceViewer.TurnPage | src/gtk_events.c:138-167 | a button, with its redraw when it moves, keeps memory and page in step |
| Viewer.TraceViewer.RestartTrace | src/gtk_events.c:169-178 | the screen shows the list from the given position on, with its redraw |
| Viewer.TraceViewer.ChangePlots | src/gtk_data.c:503-510 | the screen shows the list from the old position on with the new page size, with its redraw |
| Viewer.TraceViewer.RestartGathers | src/data.c:603-668 | the list is sorted by start time and the screen shows its first two gathers, each sorted by sensor |
| Axes.PickPower | src/axes.c:146-148 | the largest table entry below the axis length, or the scan leaves the table, exactly for lengths up to its first entry |
| Axes.PickDecade | src/axes.c:140-141 | the largest table entry that is not above the start, or the scan leaves the table, exactly for starts below its first entry |
| Axes.Overshoot | src/axes.c:164-179 | stepping by the power passes the start by at most one step, away from zero |
| Axes.FirstTick | src/axes.c:153-214 | the first tick is the multiple of the minor step next to the start, with the counter of minor steps since the last major one |
| Axes.LinearTicks | src/axes.c:242-285 | the ticks are consecutive multiples of the minor step from the start to the end, each of the right kind |
| Ticks.TableTens | src/axes.c:52-58 | the table holds the powers of ten from 10^-38 on |
| Ticks.MajorMeaning | src/axes.c:262-270 | a multiple of the minor step has the major kind exactly when it is a multiple of the major step |
| Ticks.MiddleMeaning | src/axes.c:262-270 | a tick has the middle kind exactly when it lies halfway between two multiples of the major step |
| Axes.LinearRunComplete | src/axes.c:242-285 | no multiple of the minor step inside the axis is skipped, none outside is drawn, and a tick is major exactly when it is a multiple of the power |
| Axes.LinearRunShort | src/axes.c:146-159 | at most 10 n + 1 ticks for fewer than 100 divisions |
| Axes.SpacingMeaning | src/axes.c:146-148 | the power a linear axis is spaced by is the greatest power of ten below its length |
| Axes.FirstLogTick | src/axes.c:163-179 | the first multiple of the table entry above the start |
| Axes.LogTicks | src/axes.c:225-241 | the ticks are the consecutive positions of the loop, major at the powers of ten but for table entry 2 and those behind the table, and the loop leaves the table exactly when the end reaches 10^39 from below |
| Axes.LogRunComplete | src/axes.c:225-241 | drawn are exactly the positions of the loop above the start and up to the end |
| Axes.LogCompleteExactly | src/axes.c:225-241 | all numbers c * 10^k of the range are drawn with the right kind and nothing else, exactly when the range fits the table as said under What was found |
| Axes.KindsExactly | src/axes.c:228-236 | the major ticks are the powers of ten, exactly when 10^-36 is not stepped on from below and no power of ten behind the table is |
| Axes.LowExample | src/axes.c:484-485 | from 10^-37 to 10^-35 the tick 2 * 10^-37 is missing and 10^-36 is a middle tick |
| Axes.BeyondExample | src/axes.c:163-179 | from 10^39 to 2 * 10^39 the tick 1.1 * 10^39 is drawn, which is no c * 10^k |
| Axes.LogMono | src/axes.c:238-239 | the logarithmic tick positions increase |
| Axes.LogMajor | src/axes.c:228-236 | every ninth log position is a power of ten, and no other is |
| Axes.LogMeaning | src/axes.c:225-241 | the log positions of the loop are the numbers d * 10^k, d from 1 to 9, and the powers of ten among them are major ticks |
| Axes.WholeIsComplete | src/axes.c:225-285 | between its ends an axis shows every tick position with the right kind and nothing else, linear axes always and logarithmic ones exactly when they fit; linear axes with fewer than 100 divisions have at most 10 n + 3 ticks |
| Axes.WholeMeaning | src/axes.c:225-285 | an axis shows, in plain numbers, all multiples of its power over n, or all d * 10^k exactly when its range fits |
| Axes.Check | src/axes.c:112-133 | the calls that draw nothing but an error message |
| Axes.XAxis | src/axes.c:82-287 | refused calls draw nothing; any other leaves the table of powers exactly for the lengths, starts and ends said under What was found, or draws major ticks at both ends and between them exactly the multiples of the greatest power of ten below the length over the divisions, or the d * 10^k of the range; at most 10 n + 3 ticks on linear axes |
| Axes.YAxis | src/axes.c:420-597 | the same for the y axis, with its own default divisions, its smallest spacing and its lower limits of the table |
| SortText.AtolShown | src/defaults.c:768-769 | atol reads back what %d printed, negative numbers included |
| SortText.PiecesOfCrits | src/defaults.c:763-764 | the criteria text splits into its criteria |
| SortText.ParseBody | src/defaults.c:748-775 | reading one printed entry appends exactly its criteria to its sort type |
| SortText.TableIsGood | src/globals.c:144-144 | the names of the sort types are distinct and free of separators |
| SortText.RoundTrip | src/defaults.c:690-780 | reading the saved string into empty lists rebuilds every list, in order, for any lists and any good names |
| SortFormat.ShownPrints | src/defaults.c:730-731 | %d prints the decimal digits, with a minus sign for negative numbers |
| SortFormat.AtolReads | src/defaults.c:768-769 | atol reads a sign and decimal digits up to the first other character, after blanks |
| SortFormat.SavedText | src/defaults.c:698-740 | the saved text is name:, $num;dir for each criterion, and | for each sort type with criteria |
| SortFormat.ReadsWritten | src/defaults.c:742-778 | any text of such lines is read, and appends exactly the criteria it holds to the lists it names, in order; unknown names are skipped |
| SortSettings.CountChar | src/defaults.c:682-688 | counts the occurrences of a character |
| SortSettings.Settings.EntryText | src/defaults.c:721-734 | the array filled by index joins to the entry of the sort type |
| SortSettings.Settings.Encrypt | src/defaults.c:698-740 | saves the text name:$num;dir...| for all sort types with criteria |
| SortSettings.Settings.Decrypt | src/defaults.c:742-778 | appends the criteria the text stands for; a text of lines name:$num;dir...| appends exactly theirs |
| SortSettings.SaveAndReload | src/defaults.c:690-780 | saving, clearing and reading back restores the settings |
| HdrColumns.Move | src/gtk_data.c:591-605 | memmove inside the array, overlapping ranges included |
| HdrColumns.Room | src/gtk_data.c:589-598 | an insertion always has room in the array |
| HdrColumns.EnabledExactly | src/gtk_data.c:579-615 | the list of enabled headers holds exactly the flagged ones |
| HdrColumns.HeadersAreGood | src/globals.c:124-143 | the titles of the header table differ and none is the placeholder of a missing column |
| HdrColumns.HeaderTable.Insert | src/gtk_data.c:587-598 | inserts a column in array, count and tree view |
| HdrColumns.HeaderTable.Remove | src/gtk_data.c:602-609 | removes a column from array, count and tree view |
| HdrColumns.HeaderTable.AddHdrColumns | src/gtk_data.c:562-617 | afterwards the array holds the enabled headers in header order and nulls, the tree view shows the same columns, and columns that stay are the same objects |
| Magnify.MagnifiedTrace.Consider | src/magnify.c:365-379 | one sample updates the extrema, gap zeros excepted |
| Magnify.MagnifiedTrace.ScanWindow | src/magnify.c:361-383 | the full scan visits start to end - 1 |
| Magnify.MagnifiedTrace.Extend | src/magnify.c:384-424 | the extension visits the samples before and after the cached window only |
| Magnify.MagnifiedTrace.Adjust | src/magnify.c:433-446 | the display adjustments for flat lines, missing data and odd ranges |
| Magnify.MagnifiedTrace.GetMaxMin | src/magnify.c:292-528 | one refresh: the displayed range is that of all samples of the window but the last after a full scan, and otherwise the old one widened by the samples that were added |
| Magnify.WidenedRange | src/magnify.c:433-446 | the displayed range is never empty and holds the extrema |
| Magnify.WidenedCounts | src/magnify.c:518-528 | how the range of integer counts grows, so that a displayed range of two or more is even |
| Magnify.RescanMeaning | src/magnify.c:298-383 | the first refresh, a window that begins at the first sample, one that left samples out and one after start values scan the whole window but its last sample |
| Magnify.ExtensionMeaning | src/magnify.c:384-424 | any other refresh moves the extrema no further than by the samples added at both ends |
| Magnify.WidenedDisplayed | src/magnify.c:433-528 | which range is displayed for given extrema |
| Magnify.MaxFloat | src/magnify.c:340-344 | the values a scan starts with are the greatest 32-bit floating point number and its negative |
| Magnify.RefreshKeeps | src/magnify.c:292-303 | a refresh keeps the bounds, and the exact extrema when no adjustment fires |
| Magnify.ChainKeeps | src/magnify.c:384-424 | so does any chain of zoom-outs after a full scan |
| Magnify.OneMore | src/magnify.c:363-404 | extrema of all samples but one are extrema of all exactly when that one is gap filler or lies between two others |
| Magnify.SkippedSample | src/magnify.c:363-404 | after a full scan and any chain of zoom-outs without display adjustments, the cache holds the extrema of the whole window exactly when the sample at the end of the full scan is gap filler or lies between two other counted samples of the window |
| Magnify.SkippedExample | src/magnify.c:363-404 | a run of a full scan and a zoom-out without adjustments whose greatest sample is never looked at |
| Agc.FirstNorm | src/agc_py.c:168-176 | the sum over the first window, and the cells the loop reads |
| Agc.NormOne | src/agc_py.c:168-176 | the share of one sample in a sum is its magnitude |
| Agc.Taper | src/agc_py.c:178-185 | the samples of an end are divided by the sum of the window that stands still there |
| Agc.Slide | src/agc_py.c:187-209 | the running sum equals the direct sum over the window of every sample of the middle, and the loop reads on to the end of the last window |
| Agc.Loops | src/agc_py.c:168-235 | with both pointers at any cell of memory, every sample from there on is divided by the sum of its own window, and the cells touched are those from there to the end of the reach |
| Agc.TouchesTraceOnly | src/agc_py.c:168-213 | all cells the loops touch belong to the trace exactly when the pointers start at its first cell and the window is even |
| Agc.GainAsWritten | src/agc_py.c:79-80 | with the pointers moved by nt no cell of the trace is touched and its samples stay as they are |
| Agc.Gain | src/agc_py.c:168-235 | with the pointers at the first cell every sample is divided by the sum of its own window, the statistics are those of the result, and nothing outside the trace is touched |
| Agc.GainedTimes | src/agc_py.c:183-213 | a gained sample times the sum over its window is the sample: the first window at the beginning, the one ending half a window behind it in the middle, the last one at the end |
| Agc.Statistics | src/agc_py.c:215-235 | minimum, maximum, mean and range of the result |
| Agc.SumAdds | src/agc_py.c:222-233 | the sum the mean is taken from is additive |
| Agc.InOwnWindow | src/agc_py.c:183-213 | every sample lies in its own window |
| Agc.GainBounded | src/agc_py.c:183-213 | no gained sample exceeds one in magnitude |
| Agc.GainInvariant | src/agc_py.c:183-213 | amplifying the input by a positive constant does not change the result |
| ZoomScroll.ZoomLength | src/gtk_events.c:1661-1672 | how much of the window a zoom step takes or adds, and when something is left |
| ZoomScroll.RunKeepsInside | src/gtk_events.c:1657-1707 | every run of keys keeps the window non-empty and inside the limits |
| ZoomScroll.ZoomFactorLimit | src/gtk_events.c:1661-1672 | that holds for every run exactly when zoomFactor is at most 33 |
| ZoomScroll.AnchorsKept | src/gtk_events.c:1657-1707 | scrolling keeps the length, an unclamped zoom keeps its anchor |
| ZoomScroll.ScrollLands | src/gtk_events.c:1684-1699 | a scroll moves the window by scrollFactor percent of its length to the right or left, or to the limit |
| ZoomScroll.ZoomLands | src/gtk_events.c:1657-1672 | a zoom moves each edge by its share of the length over 100 / zoomFactor, outwards at most to the limit |
| ZoomScroll.Magnifier.ReMag | src/gtk_events.c:1040-1050 | moves edges outside the limits to the limits |
| ZoomScroll.Magnifier.CheckScrollBounds | src/gtk_events.c:1321-1342 | a scroll past a limit puts the window against it, length kept |
| ZoomScroll.Magnifier.KeyEvent | src/gtk_events.c:1657-1707 | one key on the selection limits |

## Left out

- Drawing, widgets, fonts, colours, signals and help text; of the axes, label text and label overlap.
- Floating point rounding and the decimal literals for 2 pi; integer overflow of sizes and counters.
- The computation of the sine tables, their reallocation and the clean-up call of `fft`: the table is an input.
- Roots.Extend: the square roots the new entry consists of are assumed, because the reals of Dafny come without square roots.
- Cfour.Compute: lengths that are not powers of two are excluded, for `cfftr` and `cfftri` as well; the source does not check them.
- File reading, the threaded readers and failing reads; removing traces; cutting traces by shot times.
- Sorting itself: the sorts by start time and by sensor are functions that return a sorted permutation; how `listSort` picks the field it compares (src/sort.c:55-61), and that it compares start times by their difference in whole seconds (src/sort.c:81-83), is not modelled.
- Residency in gather mode, where the page size is not the size of a group.
- Gather mode with an empty trace list, which the source would read through a null pointer.
- Axes.XAxis: does not model the time-label ticks, which depend on the width of rendered text.
- Axes.YAxis: what a call draws before and after it reads outside the table of powers of ten; the model only says when that happens. The same holds for the x axis.
- The rest of the defaults table of `src/defaults.c`.
- SortSettings.Settings.Decrypt: texts that the source would read outside its pieces are excluded; out-of-range numbers in `atol` are not modelled.
- The copy of a title into a buffer of 50 characters in `add_hdr_columns`.
- Magnify.MagnifiedTrace.GetMaxMin: does not model the WINDS and FIXEDS modes, the RMS value, the sums over all traces, and traces with nothing to magnify.
- The event detection of `agc` and its retry for a silent first window.
- Agc.Loops: traces with a silent window are excluded, as for `Agc.Gain`.
- Agc.Gain: traces with a silent window are excluded, from such a window on the source divides by zero; the code is the intended one, see "What was found".
- ZoomScroll.Magnifier.KeyEvent: does not model the anchor at the mouse and the limit on zooming in by the number of displayed points.
- Zooming by dragging.
