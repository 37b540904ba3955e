# Dataset bookkeeping of the Inception-V3 retraining script

`new_model.py` retrains the last layer of a pretrained Inception-V3 network
on a folder of labelled images. Around the TensorFlow work sits a small,
deterministic bookkeeping core, and this project models that core in Dafny
and proves its properties:

- **`create_image_lists`** walks the image directory. It skips the root
  entry. Each other class directory yields a label (the directory name,
  lowercased, with every run of characters outside `[a-z0-9]` turned into one
  space). The class's files are split into training, testing and validation
  lists by hashing each file name up to its first `_nohash_` and mapping the
  hash onto a percentage.
- **`get_image_path` / `get_bottleneck_path`** pick
  `category_list[index % len(category_list)]` and join it onto a root
  directory. The cache path is that path with `.txt` appended.
- **`get_random_cached_bottlenecks`** either draws `how_many` random samples
  or enumerates a whole category label by label. Each sample carries a
  bottleneck, a one-hot ground truth and a file name.
- **`should_distort_images`** decides whether any distortion is switched on.

Modules, one file each: `Wrappers` (Option/Result), `Paths` (POSIX `basename`
and `join`), `Labels` (label normalisation), `Split` (the per-class split),
`ImageLists` (the directory fold and the insertion-ordered dictionary),
`Lookup` (path lookup), `Batches` (batch assembly), `Distortion`.

The outside world enters as parameters:
- `gfile.Exists(image_dir)` is a boolean.
- `gfile.Walk` is the sequence of walked directory paths, root first.
- `gfile.Glob` is a function from pattern to file list.
- SHA-1 of a name (as an integer) is a function `string -> nat`.
- The `random.randrange` results are a sequence of draws.
- Reading or creating a cached bottleneck is a total function of the cache
  path; its failures are not modelled (see "## Left out").

A Python dict is a key sequence (insertion order, which
`list(image_lists.keys())` exposes) plus a map. Writing an existing key keeps
its position.

`tf.logging.fatal` in TensorFlow 1 only logs. The following line then raises
anyway (`KeyError`, or `ZeroDivisionError` from `% 0`). Every such case is
therefore a `Failure` carrying the reason.

Behaviour of the code that is modelled as written:
- The glob pattern is `join(image_dir, basename(sub_dir), '*.' + ext)`, so a
  nested class directory is looked for directly under `image_dir`.
- A directory is skipped when its basename equals `image_dir` itself.
- `label_lists['dir']` is a valid category. Indexing it picks a single
  character of the directory name, so `CategoryList` gives the `dir` key a
  list of one-character strings.
- When `how_many < 0` and the category is not a key, the `KeyError` comes
  from `image_lists[label_name][category]` in the loop header. It happens
  only if there is at least one label.

The directory fold takes the walked paths and a glob function, as the code
does; the glob function supplies each class directory's files.

## Model

| member | source | states |
|---|---|---|
| Paths.Join | new_model.py:232 | `os.path.join(a, b)` is `b` when `b` is absolute or `a` is empty; otherwise it is `a` then `b`, with one separator between them exactly when `a` does not already end in one |
| Paths.BasenameIsLastComponent | new_model.py:58 | `os.path.basename` returns the last path component: a suffix of the path that is the whole path or follows a separator, and (by `Basename`'s own contract) holds no separator |
| Paths.BasenameOfJoin | new_model.py:82 | the basename of a file name joined onto any directory is that file name again |
| Paths.BasenameOfJoinExt | new_model.py:213 | appending a separator-free suffix such as `.txt` to a joined path appends it to the basename |
| Labels.Normalize | new_model.py:75 | a label holds only `a-z`, `0-9` and spaces, never two spaces in a row, is no longer than the directory name, keeps the directory name's lowercased letters and digits in order, and is exactly the character rule `Emits` applied to the lowercased name: each label character stays and each run of other characters becomes one space |
| Labels.Collapse | new_model.py:75 | `re.sub(r'[^a-z0-9]+', ' ', …)` is empty exactly for the empty string, is no longer than its input, and starts with a space exactly when the input starts with a non-label character |
| Labels.CollapseIsCanonical | new_model.py:75 | replacing every run of non-`[a-z0-9]` characters by one space always yields a string with no double space and no other character |
| Labels.CollapseAlnums | new_model.py:75 | collapsing the runs drops no letter or digit and reorders none |
| Labels.CollapseCharwise | new_model.py:75 | the run-replacement `Collapse` equals a character-local rule: a label character stays, the first character of each run becomes a space, the rest of the run vanishes |
| Labels.CollapseFixpoint | new_model.py:75 | a string is left unchanged by the run-replacement exactly when it is already canonical |
| Labels.NormalizeIdempotent | new_model.py:75 | normalising a label a second time leaves it unchanged |
| Split.StripNoHash | new_model.py:84 | `re.sub(r'_nohash_.*$', '', s)` keeps the prefix of `s` before its first `_nohash_` and all of `s` when there is none |
| Split.StripNoHashPrefix | new_model.py:84 | whatever follows the first `_nohash_` is ignored |
| Split.SameStemSameSubset | new_model.py:84-95 | `Assign`, the list one file goes to, depends only on the name before the first `_nohash_`: two files whose names agree up to the first `_nohash_` always land in the same list |
| Split.Percentage | new_model.py:86-88 | the percentage of any hash lies in [0, 100] |
| Split.PercentageTop | new_model.py:86-88 | the percentage reaches 100 exactly when the hash is congruent to `MAX_NUM_IMAGES_PER_CLASS` modulo `MAX_NUM_IMAGES_PER_CLASS + 1` |
| Split.Classify | new_model.py:90-95 | below the validation percentage is validation, below the sum of both percentages is testing, anything else is training, each as an if-and-only-if |
| Split.ClassifyMonotone | new_model.py:90-95 | a larger percentage never moves a file towards validation |
| Split.NoTrainingAbove100 | new_model.py:90-95 | if the two percentages sum to more than 100, no file is ever trained on |
| Split.SplitFiles | new_model.py:78-95 | the three lists have lengths summing to the number of files, and each holds, in file order, the base names of exactly the files assigned to it |
| Split.SelectPartitions | new_model.py:78-95 | every file's base name lands in exactly one list: the three lists together are a permutation of all base names |
| Split.SelectNoSep | new_model.py:82 | every stored name is a base name and holds no separator |
| ImageLists.Put | new_model.py:97-102 | `result[label_name] = {...}` updates the value, keeps an existing key's position, appends a new key, and keeps the keys distinct |
| ImageLists.DirEntry | new_model.py:55-102 | a walked directory yields an entry exactly when its basename is not `image_dir` and its globs find files; the entry is keyed by the normalised basename and records the basename as `dir` |
| ImageLists.CreateImageLists | new_model.py:37-104 | the result is `None` exactly when `image_dir` does not exist; otherwise it is a dictionary with distinct keys |
| ImageLists.CreateImageListsLabels | new_model.py:48-70 | a label is in the result exactly when some walked directory other than the root produces it |
| ImageLists.CreateImageListsLastWins | new_model.py:51-102 | each label's entry comes from the last walked directory producing that label, and is the complete split of that directory's files |
| ImageLists.AddDirsKeyOrder | new_model.py:51-102 | the loop lists labels in first-insertion order: of two keys, the earlier one is yielded by some directory before any directory yields the later one |
| ImageLists.CreateImageListsKeyOrder | new_model.py:51-102 | `list(image_lists.keys())`, which fixes every label index, lists the labels in the order the walk first produces them |
| ImageLists.RootIgnored | new_model.py:50-54 | the first walk entry has no influence on the result |
| ImageLists.AddDirs | new_model.py:51-102 | the loop over the walked directories keeps the dictionary well formed: the key order lists each key once, and exactly the keys that hold an entry |
| ImageLists.AddDirsLastWins | new_model.py:51-102 | after the loop `AddDirs`, a label holds the entry of the last directory yielding it, or its earlier value when none does |
| ImageLists.DirEntryProduces | new_model.py:58-102 | a directory's entry is labelled `name` exactly when the directory produces `name`, and it is then the split of that directory's files |
| Lookup.CategoryList | new_model.py:222-224 | a category has a list exactly when it is one of the record's keys `training`, `testing`, `validation`, `dir`; each list key gives its own list, and `dir` gives the one-character strings of the directory name |
| Lookup.Locate | new_model.py:216-231 | the lookup fails exactly when the label is missing, the category is missing or the list is empty, with that reason in each case; on success it picks the record's `dir` and `category_list[index % len(category_list)]` |
| Lookup.ImagePath | new_model.py:216-234 | `get_image_path` fails exactly when the lookup fails, with the same reason; otherwise the path is `os.path.join(root, dir, base)` of the located directory and base name, and so ends in that base name |
| Lookup.LocatePeriodic | new_model.py:229-231 | indices that differ by any multiple of the list length select the same directory and base name |
| Lookup.ImagePathPeriodic | new_model.py:229-230 | indices that differ by any multiple of the list length give the same result |
| Lookup.ImagePathBasename | new_model.py:229-232 | the basename of the path is `category_list[index % len(category_list)]` |
| Lookup.BottleneckPath | new_model.py:212-213 | the cache path exists exactly when the image path rooted at the bottleneck directory does, with the same failure, and is that path followed by `.txt` |
| Lookup.BottleneckPathBasename | new_model.py:212-232 | the cache file's basename is the chosen image base name with `.txt` appended |
| Lookup.CachePathBasename | new_model.py:212-232 | whenever the lookup succeeds with a plain file name, the cache path exists and its basename is that name followed by `.txt` |
| Lookup.CreatedListsHoldBaseNames | new_model.py:58-102 | every category list of every entry `create_image_lists` builds, `dir` included, holds only separator-free names, which is what the base-name lemmas need |
| Lookup.CreatedImagePathBasename | new_model.py:216-232 | for every dictionary `create_image_lists` returns, a found image path's basename is `category_list[index % len(category_list)]` |
| Batches.OneHot | new_model.py:366-367 | the ground truth has length `class_count`, 1.0 at the label index and 0.0 everywhere else |
| Batches.ArgMax | new_model.py:558 | `np.argmax` returns the first position of the maximum |
| Batches.ArgMaxOneHot | new_model.py:558 | `argmax` of a one-hot ground truth recovers the label index |
| Batches.Sample | new_model.py:357-370 | one sample succeeds exactly when its image path can be located; it then holds that path, the one-hot vector of its label and the bottleneck of its cache path |
| Batches.Push | new_model.py:368-370 | appending a sample to the three lists keeps them aligned, puts it last and keeps every earlier sample in place |
| Batches.Collect | new_model.py:354-370 | the sampling loop fails at once with no label to draw; it succeeds exactly when every draw succeeds, and then sample `i` comes from draw `i`; otherwise it raises the error of the first failing draw |
| Batches.SampleBatchSpec | new_model.py:354-370 | `SampleBatch`, the `how_many >= 0` branch, yields one sample per draw in draw order, or fails exactly when there are draws and no labels or some drawn image cannot be located, and then with the lookup error of the first such draw |
| Batches.AppendImages | new_model.py:374-385 | the inner loop appends the samples of images `0..k` of one label in index order after the existing samples |
| Batches.Enumerate | new_model.py:373-385 | the outer loop places image `ii` of label `li` after all images of earlier labels |
| Batches.SampleInList | new_model.py:374-376 | inside its category list an index is located without reduction, to that list element |
| Batches.FullBatchSpec | new_model.py:371-386 | `FullBatch`, the `how_many < 0` branch, enumerates the whole category label-major then by image index; it fails only for a missing category when there is a label |
| Batches.GetRandomCachedBottlenecks | new_model.py:348-386 | the three lists have length `how_many` when sampling and the sum of the category list lengths when enumerating; sampling with labels absent fails with `randrange(0)`, and enumerating fails only for a missing category when there is a label |
| Distortion.ShouldDistortImages | new_model.py:154-156 | distortion is off exactly when flipping is off and crop, scale and brightness are all zero |
| Distortion.DistortIffChanged | new_model.py:154-156 | for any settings, distortion is on exactly when they differ from the all-off settings (no flip, zero crop, scale and brightness) |

## Left out

- TensorFlow graph construction, bottleneck computation, training,
  evaluation and export (`create_inception_graph`, `add_final_training_ops`,
  `add_evaluation_step`, `run_bottleneck_on_image`, the top-level training
  loop): foreign framework calls and floating-point numerics.
- `maybe_download_and_extract` and `TqdmUpTo`: network I/O and a progress bar.
- `cache_bottlenecks`, `get_or_create_bottleneck`, `create_bottleneck_file`
  and `ensure_dir_exists`: disk I/O and float parsing. Only the cache path
  they use is modelled; the bottleneck read from it is a function parameter.
- `min_max_scaling_ch1`, plotting and the confusion-matrix drawing:
  floating point and foreign libraries.
- SHA-1, `random.randrange`, `gfile.Exists`, `gfile.Walk` and `gfile.Glob`:
  library internals, supplied as parameters.
- The `print` messages and warnings (lines 42, 62, 69, 71-74, 429-439):
  output only, no effect on the result.
- Labels.Normalize: lowercases ASCII only, whereas Python's `str.lower` is
  Unicode-aware; a non-ASCII letter is treated as a separator here.
- Split.Percentage: computed with exact reals, whereas the source uses
  double-precision floats; rounding at a split boundary is not modelled.
- Split.StripNoHash: assumes file names without newlines. In the regex, `.`
  does not match a newline, which the model does not distinguish.
- Paths.Join: only the two-argument POSIX rules (an absolute component
  restarts the path; no separator is doubled). Other platforms' path rules
  are not modelled.
- Batches.Sample: the bottleneck fetch is assumed never to raise, so
  `Sample`, `SampleBatchSpec` and `FullBatchSpec` fail only for lookup
  reasons. In the source, `get_or_create_bottleneck` (lines 178-207) and
  `create_bottleneck_file` (lines 250-275) can raise: a missing image reaches
  the misspelt `tf.logging.fata` at line 254 (an `AttributeError`), the
  pickle load at line 259 and the bottleneck run at lines 266-270 can raise,
  and a corrupt recreated cache file raises `ValueError` at line 207. These
  file-system and framework failures are not modelled.
- Batches.GetRandomCachedBottlenecks: when `how_many >= 0`, the draws are
  required to be as many as `how_many` and within `randrange`'s ranges,
  standing for the random module.
