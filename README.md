# PGM image filters: a verified model of the integer core

This project models the integer image-processing core of a small C program
for grayscale PGM images. The program holds an image as a height×width grid
of 8-bit samples. The model covers:

- `pgm_create`, which allocates a zeroed image;
- the merge sort used by `find_median`, and `find_median` itself;
- the median, box-average and Sobel filters of `pgm.c`, each with its
  padded or cropped output geometry;
- from the stand-alone Sobel program in `ImageProcess.c`:
  - the zeroed buffer allocation;
  - the hand-expanded closed-form gradients, kept in `short` matrices;
  - the running maximum/minimum trackers with their `else if` update;
  - the writes one cell inside a zero border;
  - the final midpoint threshold that binarises the buffer.

Each part of the model follows the code it comes from:

- **Imperative C code stays imperative.**
  - Images and buffers are Dafny arrays.
  - Each C loop that computes or copies samples is a method with a `for`/`while` loop and its invariants. Each nested loop level is its own method.
  - The exception is the row-allocation loops of `pgm_create` (pgm.c:60-63) and `allocateMemoryUC` (ImageProcess.c:56-62). Each becomes a single zero-initialised `new byte[h, w]`, because Dafny allocates a 2-D array in one step.
  - The PGM struct is the class `Pgm.Image`.
- **Specifications are functions on values.**
  - `Grid.Snapshot` turns an array into a sequence of rows.
  - `Grid.Block` lists a rectangle of the grid in row-major order. It describes the median window, the average window, the 3×3 Sobel window and the order in which the trackers see values.
  - Every method's postcondition ties its result or new state to these functions.
  - The properties the program relies on are lemmas about those functions: sortedness and permutation of the merge, order-statistic bounds of the median, truncation and range of the average, kernel equivalence and value range of the gradients, and the behaviour of the `else if` trackers.

Modules, one per file:

| module | file | content |
|---|---|---|
| `Grid` | grid.dfy | byte/short sample types, grid snapshots, row-major blocks |
| `Sorting` | sort.dfy | `merge` and `mergeSort` |
| `OrderStatistics` | rank.dfy | counting definition of the k-th smallest value |
| `Extremes` | extremes.dfy | the `if (v > max) … else if (v < min) …` trackers |
| `Pgm` | pgm.dfy | the image class, `pgm_create`, filter size check and output geometry |
| `Median` | median.dfy | `find_median` and `filter_median` |
| `Average` | average.dfy | `filter_average` |
| `Sobel` | sobel.dfy | kernels, closed forms and the integer stage of `filter_sobel` |
| `ImageProcess` | imageprocess.dfy | the integer stages of the Sobel program in `ImageProcess.c` |

Three points of modelling:

- **Size checks.** The C code never checks the image size against the filter size.
  - Without padding, `Median.FilterMedian` and `Average.FilterAverage` require `filter_size - 1 <= width` and `filter_size - 1 <= height`, so the cropped output size is not negative. An image one sample narrower than the filter is accepted and gives an empty output.
  - With padding, any image is accepted. When the image is smaller than the filter the anchor loops do not run, and the output is all zeros.
  - `Sobel.FilterSobel` likewise requires at least 2×2 samples without padding.
- **Even filter sizes.** An even filter size greater than 1 makes the C code print an error and `exit`. The model returns `Failure(EvenFilterSize)` instead. A filter size of 1 is accepted, as the code does (pgm.c:369, pgm.c:536), although the comment at pgm.c:353 asks for a size greater than 1.
- **Numeric types.**
  - The C `double` trackers only ever hold whole numbers of at most 11 bits, or their start values `DBL_MAX`, `-DBL_MAX` and `DBL_MIN`. They are modelled exactly as reals, with those constants written out.
  - The box average's `double` sum only ever holds whole numbers, so it is an integer. The cast back to `unsigned char` is truncating division.

## Model

| member | source | states |
|---|---|---|
| Pgm.Image.Create | pgm.c:44-66 | a valid image of the requested size and header fields whose every sample is 0, as `calloc` leaves it |
| Pgm.FilterGeometry | pgm.c:375-384 | with padding the output keeps the input size and results go k = (filter_size-1)/2 cells in, exactly half of filter_size-1 for odd sizes; without padding it shrinks by filter_size-1 per side and k = 0 |
| Sorting.MergedPermutation | pgm.c:483-510 | merging two runs loses and invents no element: the merge is a permutation of the two runs together |
| Sorting.MergedSorted | pgm.c:483-510 | the merge of two ascending runs is ascending |
| Sorting.MergedAbove | pgm.c:483-510 | a lower bound of both runs is a lower bound of every element of their merge |
| Sorting.MergedStep | pgm.c:483-496 | while both runs have elements, the next element written is the head of L when `L[i] <= M[j]` (ties go to L) and otherwise the head of M, and the rest of the output is the merge of what is left |
| Sorting.MergedDrain | pgm.c:498-510 | once one run is used up, the rest of the merge is the other run unchanged |
| Sorting.CopyRun | pgm.c:466-477 | the scratch arrays L and M are fresh copies of arr[left..middle] and arr[middle+1..right] |
| Sorting.MergeHeads | pgm.c:479-496 | the first loop writes a prefix of the merge from position left, stops when one run is used up, and leaves the rest of arr as it was |
| Sorting.MoveHead | pgm.c:485-495 | one iteration writes the next element of the merge and advances exactly one of i, j |
| Sorting.CopyRest | pgm.c:498-510 | a drain loop copies the remaining run into arr from position k and changes nothing else |
| Sorting.Merge | pgm.c:460-514 | arr[left..right] becomes the merge of its two old halves: a permutation of the old contents, ascending when both halves were ascending; cells outside [left, right] are unchanged |
| Sorting.MergedHalves | pgm.c:460-514 | merging the two halves of a range permutes that range, and sorts it when both halves are sorted |
| Sorting.MergeSort | pgm.c:439-450 | arr[left..right] ends ascending and a permutation of its old contents, the rest of arr untouched; the recursion terminates because left <= middle < right |
| Sorting.SortStep | pgm.c:441-448 | sorting each half and then merging sorts the whole range, permutes it and leaves the outside alone |
| OrderStatistics.CountPermutation | pgm.c:423 | sorting does not change how many window values lie below or above any value |
| OrderStatistics.SortedBelow | pgm.c:424 | in an ascending sequence at most k elements lie strictly below the element at index k |
| OrderStatistics.SortedAbove | pgm.c:424 | in an ascending sequence at most n-1-k elements lie strictly above the element at index k |
| OrderStatistics.SortedSelects | pgm.c:423-424 | the element at index k of a sorted permutation of the window is its k-th smallest value: it occurs in the window, at most k values lie below it and at most n-1-k above it |
| OrderStatistics.OrderStatisticUnique | pgm.c:423-424 | the k-th smallest value is unique, so the median does not depend on how the window was sorted |
| OrderStatistics.OrderStatisticBounds | pgm.c:424 | the k-th smallest value lies within any bounds of the window's values |
| Median.CopyRow | pgm.c:417-420 | the inner copy loop writes one window row into arr at offset k*size and nothing else |
| Median.CopyWindowRow | pgm.c:415-421 | after k+1 outer iterations arr starts with the first k+1 window rows in row-major order |
| Median.CopyWindow | pgm.c:412-421 | the scratch array holds the size×size window in row-major order, arr[k*size+m] = array[i+k][j+m] |
| Median.FindMedian | pgm.c:410-428 | the result is the value at index size*size/2 of the sorted window: a window value with at most size*size/2 window values below it and at most size*size-1-size*size/2 above it |
| Median.MedianRow | pgm.c:388-391 | one pass of the inner anchor loop writes the medians of row i at (i+k, j+k) and keeps every earlier write and every zero |
| Median.MedianFill | pgm.c:386-392 | the anchor loops write the median of every window at its offset cell; all other cells keep their 0 |
| Median.MedianWrittenAll | pgm.c:386-392 | after the loops the output grid is exactly the median-filtered image |
| Median.FilterMedian | pgm.c:363-394 | fails exactly for even sizes greater than 1; otherwise returns a fresh image of the padded or cropped size in which each written cell is its window's median and every other cell is 0 |
| Median.MedianFilteredUnique | pgm.c:386-392 | the median-filtered image is determined by the input, size and geometry |
| Median.MedianFilterOfOne | pgm.c:369-392 | filter size 1 is accepted and reproduces the input image |
| Median.MedianFilterFlat | pgm.c:386-392 | on a constant image every written cell keeps that constant |
| Average.MeanTruncates | pgm.c:565 | the average is the window sum divided by filter_size² with truncation: mean·n <= sum < (mean+1)·n |
| Average.MeanBetween | pgm.c:557-565 | the truncated mean of a window lies between any lower and upper bound of its samples |
| Average.AddRow | pgm.c:560-563 | the inner `n` loop adds one window row to the running sum |
| Average.WindowSum | pgm.c:557-564 | the `m`/`n` loops compute the sum of the window's samples |
| Average.AverageCell | pgm.c:557-565 | the value written for an anchor is the truncated mean of its window |
| Average.AverageRow | pgm.c:555-566 | one pass of the `j` loop writes the averages of row i and keeps earlier writes and zeros |
| Average.AverageFill | pgm.c:553-567 | the anchor loops write the average of every window at its offset cell; all other cells keep their 0 |
| Average.AverageWrittenAll | pgm.c:553-567 | after the loops the output grid is exactly the average-filtered image |
| Average.FilterAverage | pgm.c:530-570 | fails exactly for even sizes greater than 1; otherwise returns a fresh image of the padded or cropped size in which each written cell is its window's truncated mean and every other cell is 0 |
| Average.AverageFilterOfOne | pgm.c:536-567 | filter size 1 is accepted and reproduces the input image |
| Average.AverageFilterBetween | pgm.c:557-565 | every written cell lies within the bounds of the input's samples, so a constant image yields that constant |
| Extremes.Step | pgm.c:301-317 | one `if … else if` update never lowers the maximum or raises the minimum, and each ends as its old value or the new value |
| Extremes.ScanMax | ImageProcess.c:136-140 | after the pass the maximum bounds the start value and every value fed, and is the start value or one of the values |
| Extremes.ScanMaxIsLargest | ImageProcess.c:136-140 | when the start maximum is below every value, the final maximum is the largest value fed |
| Extremes.ScanMin | ImageProcess.c:141-145 | the minimum never rises and ends as its start value or one of the values |
| Extremes.ScanMinSeesNonRaising | ImageProcess.c:136-145 | the minimum is the minimum of the start value and the values that did not raise the running maximum when they were fed: it bounds each of those values and equals the start value or one of them |
| Extremes.ScanMinBelowNonRaising | ImageProcess.c:136-145 | the minimum bounds every value that did not raise the running maximum when it was fed |
| Extremes.ScanMinIsNonRaising | ImageProcess.c:141-145 | the minimum is the start value or a value that did not raise the running maximum when it was fed, never one that did |
| Extremes.ScanMinAboveLowest | ImageProcess.c:141-145 | the minimum never drops below a lower bound of the start value and the values |
| Extremes.ScanIncreasing | ImageProcess.c:136-145 | on a strictly increasing sequence every value goes to the maximum: the minimum keeps its start value and the maximum ends as the last value |
| Extremes.ScanBelowMax | pgm.c:301-317 | when no value exceeds the start maximum, the maximum stays and the minimum is the exact minimum |
| Extremes.SobelStartNoPositive | pgm.c:253-256 | with `x_max` starting at DBL_MIN, an image with no positive gradient leaves the maximum at DBL_MIN |
| Extremes.ThresholdScanFromZeroBorder | ImageProcess.c:208-218 | from (-DBL_MAX, DBL_MAX), a buffer that starts with two zeros and has no negative values ends with minimum 0 and maximum its largest value |
| Extremes.ZeroMinStays | ImageProcess.c:214-216 | once the minimum is 0, non-negative values never change it |
| Sobel.GradientExpanded | pgm.c:291-298 | the 3×3 kernel sum is the sum of the nine products sample·weight |
| Sobel.ClosedFormsAreKernelSums | ImageProcess.c:134-135 | the hand-expanded expressions equal the sums with the x and y Sobel kernels of pgm.c:258-259 |
| Sobel.FlatWindowGradient | pgm.c:258-259 | each kernel's weights sum to 0, so a flat window has gradient 0 |
| Sobel.GradientBounds | ImageProcess.c:134-135 | the gradients of 8-bit samples lie in [-1020, 1020], so they fit the `short` matrices |
| Sobel.KernelRow | pgm.c:293-297 | the `n` loop adds one window row times one kernel row to both sums |
| Sobel.KernelSums | pgm.c:289-298 | `x_sum` and `y_sum` are the x and y kernel sums of the window |
| Sobel.Track | pgm.c:301-308 | the `if … else if` statement performs exactly one tracker step |
| Sobel.SobelCell | pgm.c:289-317 | one anchor stores both kernel sums in temp_x/temp_y and feeds them to the trackers, touching no other cell |
| Sobel.SobelRow | pgm.c:287-318 | the `j` loop stores row i of both gradient grids and feeds it in order to the trackers |
| Sobel.SobelPassRow | pgm.c:285-319 | one pass of the `i` loop extends the stored rows and the fed prefix by row i |
| Sobel.SobelPass | pgm.c:285-319 | temp_x/temp_y end up equal to the two gradient grids, and the trackers have been fed every gradient in row-major order |
| Sobel.FilterSobel | pgm.c:248-319 | k = 1 with the input's size when padded, (width-2)×(height-2) with k = 0 otherwise; the temporary grids are the x and y gradients of every anchor; the trackers, started at (DBL_MIN, DBL_MAX), are the `else if` pass over them |
| ImageProcess.AllocateMemoryUC | ImageProcess.c:46-65 | a fresh row×column buffer of zeros |
| ImageProcess.AllocateMemoryS | ImageProcess.c:67-85 | a fresh row×column `short` matrix |
| ImageProcess.ClosedFormCell | ImageProcess.c:134-145 | the closed forms store the kernel sums at (i, j) without overflowing a `short` and feed them to the trackers |
| ImageProcess.ClosedFormRow | ImageProcess.c:133-146 | the `j` loop stores row i of both gradient grids and feeds it in order |
| ImageProcess.ClosedFormPassRow | ImageProcess.c:132-147 | one pass of the `i` loop extends the stored rows and the fed prefix by row i |
| ImageProcess.ClosedFormPass | ImageProcess.c:132-147 | x_matrix/y_matrix hold both gradient grids on the anchors, their cells outside the anchor block are unchanged, and the trackers have been fed every gradient in row-major order |
| ImageProcess.ClosedFormGradients | ImageProcess.c:132-147 | the closed-form pass computes the same gradients as filter_sobel's kernel sums, leaves the last row and column of x_matrix/y_matrix unchanged, and its trackers start at (-DBL_MAX, DBL_MAX) |
| ImageProcess.ClosedFormTrackers | ImageProcess.c:95-147 | from (-DBL_MAX, DBL_MAX) the first gradient always raises the maximum: the final maximum is the largest gradient, and the minimum is DBL_MAX or a later gradient |
| ImageProcess.WriteInteriorRow | ImageProcess.c:150-153 | row i+1 receives the rescaled values of row i of the `short` matrix at columns 1 … column-2, and nothing else changes |
| ImageProcess.WriteInterior | ImageProcess.c:149-154 | every cell (i+1, j+1) of an anchor receives the rescaled gradient; row 0, column 0 and the last row and column are not written |
| ImageProcess.RescaledBuffer | ImageProcess.c:117-154 | the buffer holds the rescaled values inside a one-pixel border of zeros |
| ImageProcess.ScanRow | ImageProcess.c:211-217 | the `j` loop feeds row i of the buffer to the trackers in column order |
| ImageProcess.ScanExtremes | ImageProcess.c:208-218 | the trackers, reset to (-DBL_MAX, DBL_MAX), are fed the whole buffer, border included, in row-major order |
| ImageProcess.BinaryLevel | ImageProcess.c:222-226 | a thresholded sample is 0 or 255, whatever the image's maximum gray value |
| ImageProcess.BinaryLevelExact | ImageProcess.c:222 | with whole-number trackers the comparison against the midpoint is exactly 2·v < max + min |
| ImageProcess.BinarizeRow | ImageProcess.c:221-227 | row i is thresholded in place and the other rows are unchanged |
| ImageProcess.Binarize | ImageProcess.c:220-228 | every sample is replaced by 0 or 255 according to the midpoint of the trackers |
| ImageProcess.Threshold | ImageProcess.c:208-228 | the whole buffer is scanned, then every sample becomes 0 or 255 by the midpoint of the scan's extremes |
| ImageProcess.BorderedThreshold | ImageProcess.c:208-228 | on a zero-bordered buffer the scan ends with minimum 0 and maximum the largest sample, so a sample becomes 0 exactly when it is below half the largest sample |

## Left out

- File I/O and Netpbm header handling. This covers `check_pgm_type`, `pgm_read`, `skip_comments`, `pgm_write`, `pgm_free` and `skipCommentLine`, and every `fopen`/`fread`/`fwrite`/`fprintf` in `main` of ImageProcess.c. The image is a parameter of the model, and writing files is not modelled.
- main.c is not part of this model. It is command-line glue only.
- The floating-point stages are not modelled:
  - the min-max rescale of `filter_sobel` (pgm.c:325-326);
  - the `sqrt`/`pow` magnitude (pgm.c:334);
  - the `round` rescales and magnitude of ImageProcess.c (lines 151-152, 183 and 193).

  `ImageProcess.WriteInterior` takes the rescale as a function parameter, so only the positions it writes are modelled. `Sobel.FilterSobel` ends once the gradients and trackers are computed.
- The XY-gradient loop of ImageProcess.c (lines 181-190) is not modelled: it is floating-point magnitude plus the same tracker pass. Its tracker behaviour is that of `Extremes.Scan`.
- The C memory-safety defects are not modelled:
  - the mis-sized `malloc` of `temp_x`/`temp_y` and their `height-1` row loop (pgm.c:261-268);
  - freeing `row` rows of matrices allocated with `row-1` (ImageProcess.c:244-246).

  Buffers are bounds-checked Dafny arrays of the size the loops use.
- The failure exits on `calloc`/`malloc` returning NULL (pgm.c:57, ImageProcess.c:51-61, 72-82) are not modelled. Allocation always succeeds in Dafny.
- `pgm_create` does not check its dimensions, and a negative size is not a valid C allocation. The model requires non-negative sizes.
- The copy of the `type` string is dropped. `format` is an ordinary field copied into the output.
- Standard output and error messages are not modelled. The even-size error becomes the `Failure` result.
- Filter sizes below 1 are excluded by precondition. The C code would loop over an empty or negative window.
- The product `filter_size * filter_size` is computed with unbounded integers, not as a 32-bit `int`. It wraps around in C only for filter sizes above 46340.
- Sobel.FilterSobel: requires at least 2×2 samples when not padded. The C code would otherwise ask `pgm_create` for a negative size.
- ImageProcess.AllocateMemoryS: promises only the size of the matrix, not its contents, because `malloc` leaves them unspecified. The model fills them with zeros.
- ImageProcess.BinaryLevel: compares with exact real arithmetic, where C computes `(maxXY+minXY)/2` in double. The two agree whenever both trackers are whole numbers below 2^53. In the one other reachable case the minimum stays DBL_MAX, and both comparisons say "below" for every sample.
- Sobel.FilterSobel: returns the temporary gradient grids and trackers rather than the final image. The sobel_x, sobel_y and filtered images come out of the floating-point stages above.
